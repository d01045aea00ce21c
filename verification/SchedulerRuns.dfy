/** The operations of the scheduler from beginning to end, each run by one agent while the others stand still: sending a
    message, launching and killing a service, and the turn of a worker. */
module SchedulerRuns {
  import opened Common
  import opened Scheduler
  import opened SchedulerInvariant
  import opened SchedulerSteps
  import opened SchedulerSafety

  /** `n` steps of agent `i` without a choice. */
  function Turns(i: nat, w: int, n: nat): (cs: seq<Choice>)
    ensures |cs| == n
  {
    seq(n, _ => Choice(i, Go(w)))
  }

  /** Agent `i` alone brings `s` to `t`. */
  ghost predicate Reaches(s: State, i: nat, w: int, t: State) { exists n: nat :: Run(s, Turns(i, w, n)) == Next(t) }

  lemma {:induction false} RunPlus(s: State, a: seq<Choice>, b: seq<Choice>)
    requires Run(s, a).Next?
    ensures Run(s, a + b) == Run(Run(s, a).state, b)
    decreases |a|
  {
    hide Step;
    if a == [] {
      assert a + b == b;
    } else {
      assert (a + b)[0] == a[0] && (a + b)[1..] == a[1..] + b;
      var o := Step(s, a[0].i, a[0].a);
      if o.Next? { RunPlus(o.state, a[1..], b); } else { RunPlus(s, a[1..], b); }
    }
  }

  lemma RunOne(s: State, i: nat, a: Action, t: State)
    requires Step(s, i, a) == Next(t)
    ensures Run(s, [Choice(i, a)]) == Next(t)
  {
    assert [Choice(i, a)][1..] == [];
  }

  lemma StepReaches(s: State, i: nat, w: int, t: State)
    requires Step(s, i, Go(w)) == Next(t)
    ensures Reaches(s, i, w, t)
  {
    hide Step;
    RunOne(s, i, Go(w), t);
    assert Turns(i, w, 1) == [Choice(i, Go(w))];
  }

  lemma StayReaches(s: State, i: nat, w: int)
    ensures Reaches(s, i, w, s)
  {
    assert Run(s, Turns(i, w, 0)) == Next(s);
  }

  lemma ThenReaches(s: State, i: nat, w: int, t: State, u: State)
    requires Reaches(s, i, w, t) && Reaches(t, i, w, u)
    ensures Reaches(s, i, w, u)
  {
    hide Run;
    var m: nat :| Run(s, Turns(i, w, m)) == Next(t);
    var n: nat :| Run(t, Turns(i, w, n)) == Next(u);
    RunPlus(s, Turns(i, w, m), Turns(i, w, n));
    assert Turns(i, w, m) + Turns(i, w, n) == Turns(i, w, m + n);
  }

  lemma NextReaches(s: State, i: nat, w: int, t: State, u: State)
    requires Step(s, i, Go(w)) == Next(t) && Reaches(t, i, w, u)
    ensures Reaches(s, i, w, u)
  {
    hide Step, Reaches;
    StepReaches(s, i, w, t);
    ThenReaches(s, i, w, t, u);
  }

  // ----- sending -----

  /** A registered handle has a live context with a live queue. */
  lemma TableAlive(s: State, c: Handle)
    requires Inv(s) && c in s.table
    ensures c in s.contexts && s.contexts[c].ref >= 1 && s.contexts[c].queue in s.queues
    ensures var d := s.queues[s.contexts[c].queue]; d.handle == c && !d.release
    ensures !s.queues[s.contexts[c].queue].inGlobal ==> s.contexts[c].queue !in s.global
  {
    assert ContextOk(s, c);
    assert QueueOk(s, s.contexts[c].queue);
  }

  function Acts(i: nat, acts: seq<Action>): (cs: seq<Choice>)
    ensures |cs| == |acts|
  {
    seq(|acts|, k requires 0 <= k < |acts| => Choice(i, acts[k]))
  }

  /** Agent `i` makes these choices and then goes on alone until the state is `t`. */
  ghost predicate Does(s: State, i: nat, acts: seq<Action>, w: int, t: State) {
    exists n: nat :: Run(s, Acts(i, acts) + Turns(i, w, n)) == Next(t)
  }

  lemma GoesOn(s: State, i: nat, w: int, t: State)
    requires Reaches(s, i, w, t)
    ensures Does(s, i, [], w, t)
  {
    var n: nat :| Run(s, Turns(i, w, n)) == Next(t);
    assert Acts(i, []) + Turns(i, w, n) == Turns(i, w, n);
  }

  lemma ActThen(s: State, i: nat, acts: seq<Action>, w: int, t: State, u: State)
    requires acts != [] && Step(s, i, acts[0]) == Next(t) && Does(t, i, acts[1..], w, u)
    ensures Does(s, i, acts, w, u)
  {
    hide Step, Run;
    var n: nat :| Run(t, Acts(i, acts[1..]) + Turns(i, w, n)) == Next(u);
    var cs := Acts(i, acts) + Turns(i, w, n);
    RunNext(s, cs, i, acts[0], t);
    assert cs[1..] == Acts(i, acts[1..]) + Turns(i, w, n);
  }

  lemma ActReaches(s: State, i: nat, a: Action, w: int, t: State, u: State)
    requires Step(s, i, a) == Next(t) && Reaches(t, i, w, u)
    ensures Does(s, i, [a], w, u)
  {
    hide Step, Does, Reaches;
    GoesOn(t, i, w, u);
    assert [a][1..] == [];
    ActThen(s, i, [a], w, t, u);
  }

  /** `skynet_send` by an idle agent. To a handle in the table: the message is the last one in the queue of its service,
      which is on the global list or with a worker, and nothing else has changed. To any other handle: nothing has. */
  lemma SendArrives(s: State, i: nat, dest: Handle, m: Message)
    requires Inv(s) && i < |s.agents| && s.agents[i] == Idle
    ensures dest !in s.table ==> Does(s, i, [Send(dest, m)], 0, s)
    ensures dest in s.table ==>
      dest in s.contexts && s.contexts[dest].queue in s.queues &&
      var q := s.contexts[dest].queue;
      var d := s.queues[q];
      Does(s, i, [Send(dest, m)], 0, s.(
        queues := s.queues[q := d.(messages := d.messages + [m], accepted := d.accepted + [m], inGlobal := true)],
        global := if d.inGlobal then s.global else s.global + [q]))
  {
    hide Inv, Step, Does, Reaches;
    var s1 := At(s, i, Sending(dest, m));
    SendStep(s, i, dest, m);
    if dest !in s.table {
      RefusedStep(s, i, dest, m);
      StepReaches(s1, i, 0, s);
      ActReaches(s, i, Send(dest, m), 0, s1, s);
    } else {
      TableAlive(s, dest);
      SentSteps(s, i, dest, m);
    }
  }

  lemma SendStep(s: State, i: nat, dest: Handle, m: Message)
    requires i < |s.agents| && s.agents[i] == Idle
    ensures Step(s, i, Send(dest, m)) == Next(At(s, i, Sending(dest, m)))
  {
  }

  lemma RefusedStep(s: State, i: nat, dest: Handle, m: Message)
    requires i < |s.agents| && s.agents[i] == Idle && dest !in s.table
    ensures Step(At(s, i, Sending(dest, m)), i, Go(0)) == Next(s)
  {
    assert s.agents[i := Sending(dest, m)][i := Idle] == s.agents;
  }

  /** The queue of a service with one more message. */
  function Pushed(s: State, q: Queue, m: Message): State
    requires q in s.queues
  {
    var d := s.queues[q];
    s.(queues := s.queues[q := d.(messages := d.messages + [m], accepted := d.accepted + [m], inGlobal := true)],
       global := if d.inGlobal then s.global else s.global + [q])
  }

  function Refs(s: State, c: Handle, ref: int): State
    requires c in s.contexts
  {
    s.(contexts := s.contexts[c := s.contexts[c].(ref := ref)])
  }

  lemma DoGrab(s: State, i: nat, w: int)
    requires i < |s.agents| && s.agents[i].Sending? && s.agents[i].dest in s.table && s.agents[i].dest in s.contexts
    ensures
      var c := s.agents[i].dest;
      Step(s, i, Go(w)) == Next(At(Refs(s, c, s.contexts[c].ref + 1), i, Pushing(c, s.agents[i].m)))
  {
  }

  lemma DoPush(s: State, i: nat, w: int)
    requires i < |s.agents| && s.agents[i].Pushing? && s.agents[i].c in s.contexts
    requires
      var q := s.contexts[s.agents[i].c].queue;
      q in s.queues && !s.queues[q].release && (!s.queues[q].inGlobal ==> q !in s.global)
    ensures
      var c, m := s.agents[i].c, s.agents[i].m;
      Step(s, i, Go(w)) == Next(At(Pushed(s, s.contexts[c].queue, m), i, Holding(c)))
  {
  }

  lemma DoHold(s: State, i: nat, w: int)
    requires i < |s.agents| && s.agents[i].Holding?
    ensures Step(s, i, Go(w)) == Next(At(s, i, Releasing(s.agents[i].c, Idle)))
  {
  }

  lemma DoRelease(s: State, i: nat, w: int)
    requires i < |s.agents| && s.agents[i].Releasing? && s.agents[i].c in s.contexts
    ensures
      var p := s.agents[i];
      var ref := s.contexts[p.c].ref - 1;
      Step(s, i, Go(w)) == Next(At(Refs(s, p.c, ref), i, if ref == 0 then Deleting(p.c, p.next) else p.next))
  {
  }

  lemma SentSteps(s: State, i: nat, dest: Handle, m: Message)
    requires i < |s.agents| && s.agents[i] == Idle && dest in s.table && dest in s.contexts && s.contexts[dest].ref >= 1
    requires s.contexts[dest].queue in s.queues && !s.queues[s.contexts[dest].queue].release
    requires !s.queues[s.contexts[dest].queue].inGlobal ==> s.contexts[dest].queue !in s.global
    ensures Does(s, i, [Send(dest, m)], 0, Pushed(s, s.contexts[dest].queue, m))
  {
    hide Step, Run, Does, Reaches;
    var q, ref := s.contexts[dest].queue, s.contexts[dest].ref;
    var s1 := At(s, i, Sending(dest, m));
    var s2 := At(Refs(s1, dest, ref + 1), i, Pushing(dest, m));
    var s3 := At(Pushed(s2, q, m), i, Holding(dest));
    var s4 := At(s3, i, Releasing(dest, Idle));
    var s5 := At(Refs(s4, dest, ref), i, Idle);
    SendStep(s, i, dest, m);
    DoGrab(s1, i, 0);
    DoPush(s2, i, 0);
    DoHold(s3, i, 0);
    DoRelease(s4, i, 0);
    StepReaches(s4, i, 0, s5);
    NextReaches(s3, i, 0, s4, s5);
    NextReaches(s2, i, 0, s3, s5);
    NextReaches(s1, i, 0, s2, s5);
    ActReaches(s, i, Send(dest, m), 0, s1, s5);
    assert s5.agents == s.agents && s5.contexts == s.contexts;
  }

  // ----- killing -----

  lemma DoKill(s: State, i: nat, h: Handle)
    requires i < |s.agents| && s.agents[i] == Idle
    ensures Step(s, i, Kill(h)) ==
      Next(if h in s.table then At(s.(table := s.table - {h}), i, Releasing(h, Idle)) else s)
  {
  }

  /** The queue of a service that is gone. */
  function Left(s: State, c: Handle, q: Queue): State
    requires q in s.queues
  {
    var d := s.queues[q];
    s.(contexts := s.contexts - {c}, queues := s.queues[q := d.(release := true)],
       global := if d.inGlobal then s.global else s.global + [q])
  }

  lemma DoDelete(s: State, i: nat, w: int)
    requires i < |s.agents| && s.agents[i].Deleting? && s.agents[i].c in s.contexts
    requires
      var q := s.contexts[s.agents[i].c].queue;
      q in s.queues && !s.queues[q].release && (!s.queues[q].inGlobal ==> q !in s.global)
    ensures
      var p := s.agents[i];
      Step(s, i, Go(w)) == Next(At(Left(s, p.c, s.contexts[p.c].queue), i, p.next))
  {
  }

  /** `skynet_handle_retire` by an idle agent. If nobody else refers to the service, its context is freed, and its
      queue is marked and is on the global list or with a worker; otherwise the reference of the table is given back. */
  lemma KillDone(s: State, i: nat, h: Handle)
    requires Inv(s) && i < |s.agents| && s.agents[i] == Idle
    ensures h !in s.table ==> Does(s, i, [Kill(h)], 0, s)
    ensures h in s.table ==>
      h in s.contexts && s.contexts[h].queue in s.queues &&
      var q := s.contexts[h].queue;
      var d := s.queues[q];
      Does(s, i, [Kill(h)], 0,
        if s.contexts[h].ref == 1 then
          s.(table := s.table - {h}, contexts := s.contexts - {h}, queues := s.queues[q := d.(release := true)],
             global := if d.inGlobal then s.global else s.global + [q])
        else
          s.(table := s.table - {h},
             contexts := s.contexts[h := s.contexts[h].(ref := s.contexts[h].ref - 1)]))
  {
    hide Inv, Step, Does, Reaches, Run;
    DoKill(s, i, h);
    if h !in s.table {
      StayReaches(s, i, 0);
      ActReaches(s, i, Kill(h), 0, s, s);
    } else {
      TableAlive(s, h);
      var q, ref := s.contexts[h].queue, s.contexts[h].ref;
      var s1 := At(s.(table := s.table - {h}), i, Releasing(h, Idle));
      DoRelease(s1, i, 0);
      if ref == 1 {
        var s2 := At(Refs(s1, h, 0), i, Deleting(h, Idle));
        var s3 := At(Left(s2, h, q), i, Idle);
        DoDelete(s2, i, 0);
        StepReaches(s2, i, 0, s3);
        NextReaches(s1, i, 0, s2, s3);
        ActReaches(s, i, Kill(h), 0, s1, s3);
        assert s3.agents == s.agents && s3.contexts == s.contexts - {h};
      } else {
        var s2 := At(Refs(s1, h, ref - 1), i, Idle);
        StepReaches(s1, i, 0, s2);
        ActReaches(s, i, Kill(h), 0, s1, s2);
        assert s2.agents == s.agents;
      }
    }
  }

  // ----- launching -----

  /** A handle and an address that may be used for a new service. */
  lemma LaunchFree(s: State, i: nat, h: Handle, q: Queue)
    requires Inv(s) && i < |s.agents| && s.agents[i] == Idle && Step(s, i, Launch(h, q)).Next?
    ensures q !in s.queues && q !in s.global && h !in s.contexts && h !in s.table
  {
    assert QueueOk(s, q) && ContextOk(s, h);
  }

  /** A service that is being launched. */
  function Begun(s: State, h: Handle, q: Queue, cb: bool): State {
    s.(queues := s.queues[q := QueueState(h, [], true, false, [], [], None)],
       contexts := s.contexts[h := Context(q, 2, cb, false)], table := s.table + {h})
  }

  lemma DoLaunch(s: State, i: nat, h: Handle, q: Queue)
    requires i < |s.agents| && s.agents[i] == Idle && Step(s, i, Launch(h, q)).Next?
    ensures Step(s, i, Launch(h, q)) == Next(At(Begun(s, h, q, false), i, Starting(h, q)))
  {
  }

  lemma DoStart(s: State, i: nat, on: bool, ok: bool)
    requires i < |s.agents| && s.agents[i].Starting? && s.agents[i].c in s.contexts
    ensures
      var p := s.agents[i];
      Step(s, i, SetCallback(on)) == Next(s.(contexts := s.contexts[p.c := s.contexts[p.c].(cb := on)])) &&
      Step(s, i, Finish(ok)) ==
        Next(At(s, i, if ok then Started(p.c, p.q) else Releasing(p.c, Retiring(p.c, p.q))))
  {
  }

  /** `skynet_callback` by the initialisation or by a callback of a service: the callback of that service is set, and what
      comes next meets its fate by it. */
  lemma CallbackSet(s: State, i: nat, on: bool)
    requires Inv(s) && i < |s.agents| && (s.agents[i].Starting? || s.agents[i].Running?)
    ensures
      var c := s.agents[i].c;
      c in s.contexts &&
      Step(s, i, SetCallback(on)) == Next(s.(contexts := s.contexts[c := s.contexts[c].(cb := on)]))
  {
    RefAlive(s, i, s.agents[i].c);
  }

  lemma DoStarted(s: State, i: nat, w: int)
    requires i < |s.agents| && s.agents[i].Started? && s.agents[i].c in s.contexts && s.contexts[s.agents[i].c].ref == 2
    ensures
      var p := s.agents[i];
      Step(s, i, Go(w)) == Next(At(Refs(s, p.c, 1), i, Marking(p.c, p.q)))
  {
  }

  lemma DoMark(s: State, i: nat, w: int)
    requires i < |s.agents| && s.agents[i].Marking? && s.agents[i].c in s.contexts
    ensures
      var p := s.agents[i];
      Step(s, i, Go(w)) ==
        Next(At(s.(contexts := s.contexts[p.c := s.contexts[p.c].(init := true)]), i, Publishing(p.q)))
  {
  }

  lemma DoPublish(s: State, i: nat, w: int)
    requires i < |s.agents| && s.agents[i].Publishing? && s.agents[i].q in s.queues && s.agents[i].q !in s.global
    ensures Step(s, i, Go(w)) == Next(At(s.(global := s.global + [s.agents[i].q]), i, Idle))
  {
  }

  /** A launcher whose service is initialised. */
  lemma StartedReaches(s: State, i: nat, w: int, c: Handle, q: Queue, on: bool)
    requires i < |s.agents| && s.agents[i] == Started(c, q)
    requires c in s.contexts && s.contexts[c] == Context(q, 2, on, false)
    requires q in s.queues && q !in s.global
    ensures Reaches(s, i, w,
      At(s.(contexts := s.contexts[c := Context(q, 1, on, true)], global := s.global + [q]), i, Idle))
  {
    hide Step, Reaches, Run;
    var s1 := At(Refs(s, c, 1), i, Marking(c, q));
    var s2 := At(s.(contexts := s.contexts[c := Context(q, 1, on, true)]), i, Publishing(q));
    assert s1.agents[i := Publishing(q)] == s2.agents;
    var s3 := At(s2.(global := s.global + [q]), i, Idle);
    DoStarted(s, i, w);
    DoMark(s1, i, w);
    DoPublish(s2, i, w);
    assert s1.contexts[c := s1.contexts[c].(init := true)] == s2.contexts;
    StepReaches(s2, i, w, s3);
    NextReaches(s1, i, w, s2, s3);
    NextReaches(s, i, w, s1, s3);
    assert s3.agents == s.agents[i := Idle];
  }

  lemma ThreeActs(s: State, i: nat, a: Action, b: Action, c: Action, w: int, t: State, u: State, v: State, x: State)
    requires Step(s, i, a) == Next(t) && Step(t, i, b) == Next(u) && Step(u, i, c) == Next(v) && Reaches(v, i, w, x)
    ensures Does(s, i, [a, b, c], w, x)
  {
    hide Step, Does, Reaches, Run;
    ActReaches(u, i, c, w, v, x);
    assert [b, c][1..] == [c] && [a, b, c][1..] == [b, c];
    ActThen(t, i, [b, c], w, u, x);
    ActThen(s, i, [a, b, c], w, t, x);
  }

  lemma TwoActs(s: State, i: nat, a: Action, b: Action, w: int, t: State, u: State, x: State)
    requires Step(s, i, a) == Next(t) && Step(t, i, b) == Next(u) && Reaches(u, i, w, x)
    ensures Does(s, i, [a, b], w, x)
  {
    hide Step, Does, Reaches, Run;
    ActReaches(t, i, b, w, u, x);
    assert [a, b][1..] == [b];
    ActThen(s, i, [a, b], w, t, x);
  }

  /** `skynet_context_new` with an initialisation that succeeds: the service is registered and marked as initialised,
      one reference is left, and its queue is the last one of the global list. */
  lemma LaunchDone(s: State, i: nat, h: Handle, q: Queue, on: bool)
    requires Inv(s) && i < |s.agents| && s.agents[i] == Idle && Step(s, i, Launch(h, q)).Next?
    ensures Does(s, i, [Launch(h, q), SetCallback(on), Finish(true)], 0, s.(
      queues := s.queues[q := QueueState(h, [], true, false, [], [], None)],
      contexts := s.contexts[h := Context(q, 1, on, true)], table := s.table + {h}, global := s.global + [q]))
  {
    LaunchFree(s, i, h, q);
    DoLaunch(s, i, h, q);
    hide Inv, Step, Does, Reaches, Run;
    var s1 := At(Begun(s, h, q, false), i, Starting(h, q));
    var s2 := At(Begun(s, h, q, on), i, Starting(h, q));
    var s3 := At(Begun(s, h, q, on), i, Started(h, q));
    DoStart(s1, i, on, true);
    DoStart(s2, i, on, true);
    assert s1.contexts[h := s1.contexts[h].(cb := on)] == s2.contexts;
    assert s3.agents == s2.agents[i := Started(h, q)];
    StartedReaches(s3, i, 0, h, q, on);
    var end := At(s3.(contexts := s3.contexts[h := Context(q, 1, on, true)], global := s3.global + [q]), i, Idle);
    ThreeActs(s, i, Launch(h, q), SetCallback(on), Finish(true), 0, s1, s2, s3, end);
    assert end.agents == s.agents && end.contexts == s.contexts[h := Context(q, 1, on, true)];
  }

  lemma DoRetire(s: State, i: nat, w: int)
    requires i < |s.agents| && s.agents[i].Retiring? && s.agents[i].c in s.table
    ensures
      var p := s.agents[i];
      Step(s, i, Go(w)) == Next(At(s.(table := s.table - {p.c}), i, Releasing(p.c, Disposing(p.q))))
  {
  }

  lemma DoDispose(s: State, i: nat, w: int)
    requires i < |s.agents| && s.agents[i].Disposing? && s.agents[i].q in s.queues
    ensures
      var q := s.agents[i].q;
      (s.queues[q].release ==> Step(s, i, Go(w)) == Next(At(s, i, Dropping(q)))) &&
      (!s.queues[q].release && q !in s.global ==>
        Step(s, i, Go(w)) == Next(At(s.(global := s.global + [q]), i, Idle)))
  {
  }

  lemma DoFree(s: State, i: nat, w: int)
    requires i < |s.agents| && s.agents[i].Dropping? && s.agents[i].q in s.queues && s.agents[i].q !in s.global
    requires s.queues[s.agents[i].q].messages == []
    ensures
      var q := s.agents[i].q;
      Step(s, i, Go(w)) ==
        Next(At(s.(queues := s.queues - {q}, past := s.past + [s.queues[q].(inGlobal := false)]), i, Idle))
  {
  }

  /** A launcher whose service has failed. */
  lemma FailedReaches(s: State, i: nat, w: int, c: Handle, q: Queue, cb: bool)
    requires i < |s.agents| && s.agents[i] == Releasing(c, Retiring(c, q)) && c in s.table && q !in s.global
    requires c in s.contexts && s.contexts[c] == Context(q, 2, cb, false)
    requires q in s.queues && s.queues[q] == QueueState(c, [], true, false, [], [], None)
    ensures Reaches(s, i, w, At(s.(
      queues := s.queues - {q}, contexts := s.contexts - {c}, table := s.table - {c},
      past := s.past + [QueueState(c, [], false, true, [], [], None)]), i, Idle))
  {
    hide Step, Reaches, Run;
    var s1 := At(Refs(s, c, 1), i, Retiring(c, q));
    var s2 := At(s1.(table := s.table - {c}), i, Releasing(c, Disposing(q)));
    var s3 := At(Refs(s2, c, 0), i, Deleting(c, Disposing(q)));
    var s4 := At(Left(s3, c, q), i, Disposing(q));
    var s5 := At(s4, i, Dropping(q));
    var s6 := At(s5.(queues := s5.queues - {q}, past := s.past + [s5.queues[q].(inGlobal := false)]), i, Idle);
    DoRelease(s, i, w);
    DoRetire(s1, i, w);
    DoRelease(s2, i, w);
    DoDelete(s3, i, w);
    DoDispose(s4, i, w);
    DoFree(s5, i, w);
    StepReaches(s5, i, w, s6);
    NextReaches(s4, i, w, s5, s6);
    NextReaches(s3, i, w, s4, s6);
    NextReaches(s2, i, w, s3, s6);
    NextReaches(s1, i, w, s2, s6);
    NextReaches(s, i, w, s1, s6);
    assert s6.contexts == s.contexts - {c} && s6.queues == s.queues - {q};
    assert s6.agents == s.agents[i := Idle];
  }

  /** `skynet_context_new` with an initialisation that fails: nothing is left of the service. */
  lemma LaunchFails(s: State, i: nat, h: Handle, q: Queue)
    requires Inv(s) && i < |s.agents| && s.agents[i] == Idle && Step(s, i, Launch(h, q)).Next?
    ensures Does(s, i, [Launch(h, q), Finish(false)], 0,
                 s.(past := s.past + [QueueState(h, [], false, true, [], [], None)]))
  {
    LaunchFree(s, i, h, q);
    DoLaunch(s, i, h, q);
    hide Inv, Step, Does, Reaches, Run;
    var s1 := At(Begun(s, h, q, false), i, Starting(h, q));
    var s2 := At(s1, i, Releasing(h, Retiring(h, q)));
    DoStart(s1, i, false, false);
    FailedReaches(s2, i, 0, h, q, false);
    var end := At(s2.(queues := s2.queues - {q}, contexts := s2.contexts - {h}, table := s2.table - {h},
                      past := s2.past + [QueueState(h, [], false, true, [], [], None)]), i, Idle);
    TwoActs(s, i, Launch(h, q), Finish(false), 0, s1, s2, end);
    assert end.agents == s.agents && end.contexts == s.contexts && end.queues == s.queues && end.table == s.table;
  }
}
