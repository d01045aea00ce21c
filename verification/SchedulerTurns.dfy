/** The turn of a worker that has taken a queue: how many messages it lets through, what becomes of each, and which
    queue it goes on with. */
module SchedulerTurns {
  import opened Common
  import opened Scheduler
  import opened SchedulerInvariant
  import opened SchedulerSteps
  import opened SchedulerSafety
  import opened SchedulerRuns

  /** Messages are dispatched if the service has a callback, and freed if not. */
  function Met(cb: bool, ms: seq<Message>): (fs: seq<Fate>)
    ensures |fs| == |ms|
    ensures forall k :: 0 <= k < |fs| ==> fs[k] == if cb then Dispatched(ms[k]) else Freed(ms[k])
  {
    seq(|ms|, k requires 0 <= k < |ms| => if cb then Dispatched(ms[k]) else Freed(ms[k]))
  }

  /** The queue after the first `n` messages. */
  function After(d: QueueState, n: nat, cb: bool): QueueState
    requires n <= |d.messages|
  {
    d.(messages := d.messages[n..], gone := d.gone + Met(cb, d.messages[..n]), hand := None)
  }

  lemma MetPlus(cb: bool, ms: seq<Message>, n: nat)
    requires n < |ms|
    ensures Met(cb, ms[..1]) + Met(cb, ms[1..][..n]) == Met(cb, ms[..n + 1])
  {
  }

  lemma AfterPlus(d: QueueState, n: nat, cb: bool)
    requires n < |d.messages|
    ensures |After(d, 1, cb).messages| == |d.messages| - 1 && After(After(d, 1, cb), n, cb) == After(d, n + 1, cb)
  {
    var ms := d.messages;
    MetPlus(cb, ms, n);
    hide Met;
    assert ms[1..][n..] == ms[n + 1..];
    assert (d.gone + Met(cb, ms[..1])) + Met(cb, ms[1..][..n]) == d.gone + (Met(cb, ms[..1]) + Met(cb, ms[1..][..n]));
  }

  // ----- one message -----

  /** A worker that can take a message out of its queue. */
  predicate Works(s: State, i: nat, c: Handle, q: Queue) {
    i < |s.agents| && q in s.queues && c in s.contexts && s.contexts[c].init && s.queues[q].hand == None
  }

  lemma DoPop(s: State, i: nat, w: int)
    requires i < |s.agents| && s.agents[i].Popping? && s.agents[i].q in s.queues
    requires s.queues[s.agents[i].q].messages != []
    ensures
      var p := s.agents[i];
      var m := s.queues[p.q].messages[0];
      Step(s, i, Go(w)) == Next(At(
        s.(queues := s.queues[p.q := s.queues[p.q].(messages := s.queues[p.q].messages[1..], hand := Some(m))]), i,
        if p.i == 0 && w >= 0 then Measuring(p.c, p.q, m, w) else Calling(p.c, p.q, p.i, p.n, m)))
  {
  }

  lemma DoMeasure(s: State, i: nat, w: int)
    requires i < |s.agents| && s.agents[i].Measuring? && s.agents[i].q in s.queues
    ensures
      var p := s.agents[i];
      Step(s, i, Go(w)) ==
        Next(At(s, i, Calling(p.c, p.q, 0, |s.queues[p.q].messages| / Pow(2, p.weight), p.m)))
  {
  }

  lemma DoCall(s: State, i: nat, w: int)
    requires i < |s.agents| && s.agents[i].Calling? && s.agents[i].q in s.queues && s.agents[i].c in s.contexts
    requires s.contexts[s.agents[i].c].init
    ensures
      var p := s.agents[i];
      var d, cb := s.queues[p.q], s.contexts[p.c].cb;
      Step(s, i, Go(w)) == Next(At(
        s.(queues := s.queues[p.q := d.(gone := d.gone + [if cb then Dispatched(p.m) else Freed(p.m)], hand := None)]),
        i, if cb then Running(p.c, p.q, p.i, p.n, p.m) else NextRound(p.c, p.q, p.i, p.n)))
  {
  }

  lemma DoRun(s: State, i: nat, w: int)
    requires i < |s.agents| && s.agents[i].Running?
    ensures
      var p := s.agents[i];
      Step(s, i, Go(w)) == Next(At(s, i, NextRound(p.c, p.q, p.i, p.n)))
  {
  }

  /** From a call to the next round. */
  lemma CallReaches(s: State, i: nat, w: int)
    requires i < |s.agents| && s.agents[i].Calling? && s.agents[i].q in s.queues && s.agents[i].c in s.contexts
    requires s.contexts[s.agents[i].c].init
    ensures
      var p := s.agents[i];
      var d, cb := s.queues[p.q], s.contexts[p.c].cb;
      Reaches(s, i, w, At(
        s.(queues := s.queues[p.q := d.(gone := d.gone + [if cb then Dispatched(p.m) else Freed(p.m)], hand := None)]),
        i, NextRound(p.c, p.q, p.i, p.n)))
  {
    hide Step, Reaches, NextRound;
    var p := s.agents[i];
    var d, cb := s.queues[p.q], s.contexts[p.c].cb;
    var t := s.(queues := s.queues[p.q := d.(gone := d.gone + [if cb then Dispatched(p.m) else Freed(p.m)],
                                             hand := None)]);
    var end := At(t, i, NextRound(p.c, p.q, p.i, p.n));
    DoCall(s, i, w);
    if cb {
      var s1 := At(t, i, Running(p.c, p.q, p.i, p.n, p.m));
      DoRun(s1, i, w);
      assert At(s1, i, NextRound(p.c, p.q, p.i, p.n)) == end;
      StepReaches(s1, i, w, end);
      NextReaches(s, i, w, s1, end);
    } else {
      StepReaches(s, i, w, end);
    }
  }

  /** From a pop to the next round. The first round of a worker with a weight fixes how many rounds there are. */
  lemma RoundReaches(s: State, i: nat, w: int)
    requires i < |s.agents| && s.agents[i].Popping? && Works(s, i, s.agents[i].c, s.agents[i].q)
    requires s.queues[s.agents[i].q].messages != []
    ensures
      var p := s.agents[i];
      var d := s.queues[p.q];
      var n := if p.i == 0 && w >= 0 then (|d.messages| - 1) / Pow(2, w) else p.n;
      Reaches(s, i, w, At(s.(queues := s.queues[p.q := After(d, 1, s.contexts[p.c].cb)]), i,
                          NextRound(p.c, p.q, p.i, n)))
  {
    hide Step, Reaches, NextRound, Pow;
    var p := s.agents[i];
    var d, cb := s.queues[p.q], s.contexts[p.c].cb;
    var m := d.messages[0];
    var n := if p.i == 0 && w >= 0 then (|d.messages| - 1) / Pow(2, w) else p.n;
    var popped := s.(queues := s.queues[p.q := d.(messages := d.messages[1..], hand := Some(m))]);
    var s2 := At(popped, i, Calling(p.c, p.q, p.i, n, m));
    var end := At(s.(queues := s.queues[p.q := After(d, 1, cb)]), i, NextRound(p.c, p.q, p.i, n));
    DoPop(s, i, w);
    CallReaches(s2, i, w);
    OneAfter(d, cb);
    assert end == At(s2.(queues := s2.queues[p.q := After(d, 1, cb)]), i, NextRound(p.c, p.q, p.i, n));
    if p.i == 0 && w >= 0 {
      var s1 := At(popped, i, Measuring(p.c, p.q, m, w));
      DoMeasure(s1, i, w);
      assert At(s1, i, Calling(p.c, p.q, 0, n, m)) == s2;
      NextReaches(s1, i, w, s2, end);
      NextReaches(s, i, w, s1, end);
    } else {
      NextReaches(s, i, w, s2, end);
    }
  }

  lemma OneAfter(d: QueueState, cb: bool)
    requires d.messages != []
    ensures
      var m := d.messages[0];
      After(d, 1, cb) == d.(messages := d.messages[1..], hand := Some(m)).(
        gone := d.gone + [if cb then Dispatched(m) else Freed(m)], hand := None)
  {
    assert Met(cb, d.messages[..1]) == [if cb then Dispatched(d.messages[0]) else Freed(d.messages[0])];
  }

  // ----- a turn -----

  /** From round `k` to the last one, `n`. */
  lemma {:induction false} RoundsReach(s: State, i: nat, w: int, k: nat, n: nat)
    requires i < |s.agents| && s.agents[i].Popping? && Works(s, i, s.agents[i].c, s.agents[i].q)
    requires 0 < k < n && s.agents[i].i == k && s.agents[i].n == n
    requires |s.queues[s.agents[i].q].messages| >= n - k
    ensures
      var p := s.agents[i];
      Reaches(s, i, w, At(s.(queues := s.queues[p.q := After(s.queues[p.q], n - k, s.contexts[p.c].cb)]), i,
                          Yielding(p.c, p.q)))
    decreases n - k
  {
    hide Step, Reaches;
    var p := s.agents[i];
    var d, cb := s.queues[p.q], s.contexts[p.c].cb;
    var t := At(s.(queues := s.queues[p.q := After(d, 1, cb)]), i, NextRound(p.c, p.q, k, n));
    var end := At(s.(queues := s.queues[p.q := After(d, n - k, cb)]), i, Yielding(p.c, p.q));
    RoundReaches(s, i, w);
    if k + 1 < n {
      RoundsReach(t, i, w, k + 1, n);
      AfterPlus(d, n - k - 1, cb);
      assert end == At(t.(queues := t.queues[p.q := After(t.queues[p.q], n - k - 1, cb)]), i, Yielding(p.c, p.q));
      ThenReaches(s, i, w, t, end);
    }
  }

  /** How many messages a worker with weight `w` lets through if `len` are in the queue: one, or the part of the others
      that the weight says. */
  function Quota(len: nat, w: int): (n: nat)
    requires len > 0
    ensures 0 < n <= len
  {
    if w < 0 then 1
    else
      Part(len - 1, w);
      Max(1, (len - 1) / Pow(2, w))
  }

  lemma Part(len: nat, w: nat)
    ensures 0 <= len / Pow(2, w) <= len
  {
    DivFloor(len, Pow(2, w));
    MulMono(len / Pow(2, w), 1, Pow(2, w));
  }

  lemma TurnReaches(s: State, i: nat, w: int)
    requires i < |s.agents| && s.agents[i].Popping? && Works(s, i, s.agents[i].c, s.agents[i].q)
    requires s.agents[i].i == 0 && s.agents[i].n == 1
    requires s.queues[s.agents[i].q].messages != []
    ensures
      var p := s.agents[i];
      var d := s.queues[p.q];
      Reaches(s, i, w, At(s.(queues := s.queues[p.q := After(d, Quota(|d.messages|, w), s.contexts[p.c].cb)]), i,
                          Yielding(p.c, p.q)))
  {
    hide Step, Reaches, Pow;
    var p := s.agents[i];
    var d, cb := s.queues[p.q], s.contexts[p.c].cb;
    var n := if w >= 0 then (|d.messages| - 1) / Pow(2, w) else 1;
    var t := At(s.(queues := s.queues[p.q := After(d, 1, cb)]), i, NextRound(p.c, p.q, 0, n));
    RoundReaches(s, i, w);
    if n > 1 {
      Part(|d.messages| - 1, w);
      RoundsReach(t, i, w, 1, n);
      AfterPlus(d, n - 1, cb);
      var end := At(s.(queues := s.queues[p.q := After(d, n, cb)]), i, Yielding(p.c, p.q));
      assert end == At(t.(queues := t.queues[p.q := After(t.queues[p.q], n - 1, cb)]), i, Yielding(p.c, p.q));
      ThenReaches(s, i, w, t, end);
    }
  }

  lemma DoYield(s: State, i: nat, w: int)
    requires i < |s.agents| && s.agents[i].Yielding? && s.agents[i].c in s.contexts
    requires s.contexts[s.agents[i].c].queue == s.agents[i].q
    ensures
      var p := s.agents[i];
      Step(s, i, Go(w)) == Next(if s.global == [] then At(s, i, Releasing(p.c, Held(p.q)))
                                else At(s.(global := s.global[1..]), i, Returning(p.c, p.q, s.global[0])))
  {
  }

  lemma DoReturn(s: State, i: nat, w: int)
    requires i < |s.agents| && s.agents[i].Returning? && s.agents[i].q in s.queues && s.agents[i].q !in s.global
    ensures
      var p := s.agents[i];
      Step(s, i, Go(w)) == Next(At(s.(global := s.global + [p.q]), i, Releasing(p.c, Held(p.nq))))
  {
  }

  /** The queue goes to the end of the global list and the worker takes the first one of it. */
  lemma YieldReaches(s: State, i: nat, w: int)
    requires i < |s.agents| && s.agents[i].Yielding? && s.agents[i].c in s.contexts
    requires s.contexts[s.agents[i].c].queue == s.agents[i].q && s.contexts[s.agents[i].c].ref > 1
    requires s.agents[i].q in s.queues && s.agents[i].q !in s.global
    ensures
      var p, all := s.agents[i], s.global + [s.agents[i].q];
      Reaches(s, i, w, At(Refs(s, p.c, s.contexts[p.c].ref - 1).(global := all[1..]), i, Held(all[0])))
  {
    hide Step, Reaches;
    var p, all := s.agents[i], s.global + [s.agents[i].q];
    var ref := s.contexts[p.c].ref - 1;
    var end := At(Refs(s, p.c, ref).(global := all[1..]), i, Held(all[0]));
    DoYield(s, i, w);
    var s2 := At(s.(global := all[1..]), i, Releasing(p.c, Held(all[0])));
    DoRelease(s2, i, w);
    assert At(Refs(s2, p.c, ref), i, Held(all[0])) == end;
    StepReaches(s2, i, w, end);
    if s.global == [] {
      assert s2 == At(s, i, Releasing(p.c, Held(p.q)));
      NextReaches(s, i, w, s2, end);
    } else {
      var s1 := At(s.(global := s.global[1..]), i, Returning(p.c, p.q, s.global[0]));
      DoReturn(s1, i, w);
      assert s.global[1..] + [p.q] == all[1..] && At(s1.(global := all[1..]), i, Releasing(p.c, Held(all[0]))) == s2;
      NextReaches(s1, i, w, s2, end);
      NextReaches(s, i, w, s1, end);
    }
  }

  lemma DoTake(s: State, i: nat, w: int)
    requires i < |s.agents| && s.agents[i].Held? && s.agents[i].q in s.queues
    ensures
      var q := s.agents[i].q;
      var c := s.queues[q].handle;
      Step(s, i, Go(w)) ==
        Next(if c in s.table && c in s.contexts
             then At(Refs(s, c, s.contexts[c].ref + 1), i, Popping(c, q, 0, 1)) else At(s, i, Disposing(q)))
  {
  }

  lemma DoLeave(s: State, i: nat, w: int)
    requires i < |s.agents| && s.agents[i].Popping? && s.agents[i].q in s.queues
    requires s.queues[s.agents[i].q].messages == []
    ensures
      var p := s.agents[i];
      Step(s, i, Go(w)) ==
        Next(At(s.(queues := s.queues[p.q := s.queues[p.q].(inGlobal := false)]), i, Releasing(p.c, Idle)))
  {
  }

  /** What is known of a queue with a worker. */
  lemma HeldKnown(s: State, i: nat, q: Queue)
    requires Inv(s) && i < |s.agents| && s.agents[i] == Held(q)
    ensures q in s.queues && q !in s.global && s.queues[q].hand == None && s.queues[q].handle != 0
    ensures
      var c := s.queues[q].handle;
      c in s.table ==>
        c in s.contexts && s.contexts[c].queue == q && s.contexts[c].init && s.contexts[c].ref >= 1 &&
        !s.queues[q].release
  {
    InvAt(s, i);
    HeldAlive(s, i, q);
    var c := s.queues[q].handle;
    assert QueueOk(s, q) && ContextOk(s, c);
  }

  /** A worker that has taken the queue of a registered service with messages: the first ones, as many as its weight
      says and at least one, meet their fate in their order, each handed to the callback if there is one; then the
      queue is the last one of the global list, and the worker has the first one of that list. */
  lemma WorkerTurn(s: State, i: nat, w: int, q: Queue)
    requires Inv(s) && i < |s.agents| && s.agents[i] == Held(q)
    requires q in s.queues && s.queues[q].handle in s.table && s.queues[q].messages != []
    ensures s.queues[q].handle in s.contexts
    ensures
      var d, cb := s.queues[q], s.contexts[s.queues[q].handle].cb;
      var n := if w < 0 then 1 else Max(1, (|d.messages| - 1) / Pow(2, w));
      0 < n <= |d.messages| &&
      Reaches(s, i, w, s.(
        queues := s.queues[q := d.(
          messages := d.messages[n..],
          gone := d.gone +
            seq(n, k requires 0 <= k < n => if cb then Dispatched(d.messages[k]) else Freed(d.messages[k])))],
        global := (s.global + [q])[1..], agents := s.agents[i := Held((s.global + [q])[0])]))
  {
    hide Inv, Step, Reaches, Run, Pow;
    HeldKnown(s, i, q);
    var d, c := s.queues[q], s.queues[q].handle;
    var cb, ref := s.contexts[c].cb, s.contexts[c].ref;
    var n := Quota(|d.messages|, w);
    var s1 := At(Refs(s, c, ref + 1), i, Popping(c, q, 0, 1));
    DoTake(s, i, w);
    TurnReaches(s1, i, w);
    var s2 := At(s1.(queues := s1.queues[q := After(d, n, cb)]), i, Yielding(c, q));
    YieldReaches(s2, i, w);
    var all := s.global + [q];
    var s3 := At(Refs(s2, c, ref).(global := all[1..]), i, Held(all[0]));
    ThenReaches(s1, i, w, s2, s3);
    NextReaches(s, i, w, s1, s3);
    assert s3.contexts == s.contexts && s3.agents == s.agents[i := Held(all[0])];
    assert Met(cb, d.messages[..n]) ==
      seq(n, k requires 0 <= k < n => if cb then Dispatched(d.messages[k]) else Freed(d.messages[k]));
  }

  lemma DoFetch(s: State, i: nat, w: int)
    requires i < |s.agents| && s.agents[i] == Idle && s.global != []
    ensures Step(s, i, Go(w)) == Next(At(s.(global := s.global[1..]), i, Held(s.global[0])))
  {
  }

  lemma FetchKeeps(s: State, i: nat, w: int)
    requires Inv(s) && i < |s.agents| && s.agents[i] == Idle && s.global != []
    ensures Inv(At(s.(global := s.global[1..]), i, Held(s.global[0]))) && s.global[0] in s.queues
  {
    hide Inv, Step;
    DoFetch(s, i, 0);
    StepGood(s, i, Go(0));
    var t := At(s.(global := s.global[1..]), i, Held(s.global[0]));
    HeldKnown(t, i, s.global[0]);
  }

  /** Turn by turn: an idle worker takes the first queue of the global list, lets its share of messages through, puts the
      queue behind all others and takes the next one. */
  lemma RoundRobin(s: State, i: nat, w: int)
    requires Inv(s) && i < |s.agents| && s.agents[i] == Idle && s.global != []
    requires s.global[0] in s.queues && s.queues[s.global[0]].handle in s.table && s.queues[s.global[0]].messages != []
    ensures s.queues[s.global[0]].handle in s.contexts
    ensures
      var q := s.global[0];
      var d, cb := s.queues[q], s.contexts[s.queues[q].handle].cb;
      var n := if w < 0 then 1 else Max(1, (|d.messages| - 1) / Pow(2, w));
      var all := s.global[1..] + [q];
      0 < n <= |d.messages| &&
      Reaches(s, i, w, s.(
        queues := s.queues[q := d.(
          messages := d.messages[n..],
          gone := d.gone +
            seq(n, k requires 0 <= k < n => if cb then Dispatched(d.messages[k]) else Freed(d.messages[k])))],
        global := all[1..], agents := s.agents[i := Held(all[0])]))
  {
    hide Inv, Step, Reaches, Run, Pow;
    var q := s.global[0];
    var t := At(s.(global := s.global[1..]), i, Held(q));
    DoFetch(s, i, w);
    FetchKeeps(s, i, w);
    WorkerTurn(t, i, w, q);
    var d, cb := s.queues[q], s.contexts[s.queues[q].handle].cb;
    var n := if w < 0 then 1 else Max(1, (|d.messages| - 1) / Pow(2, w));
    var all := s.global[1..] + [q];
    var fs := seq(n, k requires 0 <= k < n => if cb then Dispatched(d.messages[k]) else Freed(d.messages[k]));
    var u := t.(queues := t.queues[q := d.(messages := d.messages[n..], gone := d.gone + fs)], global := all[1..],
                agents := t.agents[i := Held(all[0])]);
    NextReaches(s, i, w, t, u);
    assert u.agents == s.agents[i := Held(all[0])];
  }

  /** An empty queue is left alone: it is marked as not scheduled and the worker is free. */
  lemma EmptyTurn(s: State, i: nat, w: int, q: Queue)
    requires Inv(s) && i < |s.agents| && s.agents[i] == Held(q)
    requires q in s.queues && s.queues[q].handle in s.table && s.queues[q].messages == []
    ensures Reaches(s, i, w, s.(
      queues := s.queues[q := s.queues[q].(inGlobal := false)], agents := s.agents[i := Idle]))
  {
    hide Inv, Step, Reaches, Run;
    HeldKnown(s, i, q);
    var c := s.queues[q].handle;
    var ref := s.contexts[c].ref;
    var s1 := At(Refs(s, c, ref + 1), i, Popping(c, q, 0, 1));
    var s2 := At(s1.(queues := s.queues[q := s.queues[q].(inGlobal := false)]), i, Releasing(c, Idle));
    var s3 := At(Refs(s2, c, ref), i, Idle);
    DoTake(s, i, w);
    DoLeave(s1, i, w);
    DoRelease(s2, i, w);
    StepReaches(s2, i, w, s3);
    NextReaches(s1, i, w, s2, s3);
    NextReaches(s, i, w, s1, s3);
    assert s3.contexts == s.contexts && s3.agents == s.agents[i := Idle];
  }

  // ----- a queue whose service is gone -----

  lemma DoDrop(s: State, i: nat, w: int)
    requires i < |s.agents| && s.agents[i].Dropping? && s.agents[i].q in s.queues
    requires s.queues[s.agents[i].q].messages != [] && s.queues[s.agents[i].q].handle != 0
    ensures
      var q := s.agents[i].q;
      var d := s.queues[q];
      Step(s, i, Go(w)) == Next(s.(
        queues := s.queues[q := d.(
          messages := d.messages[1..], gone := d.gone + [Dropped(d.messages[0])], hand := None)],
        agents := s.agents + [Sending(d.messages[0].source, Message(d.handle, 0, 0))]))
  {
  }

  function Notes(h: Handle, ms: seq<Message>): (ps: seq<Pc>)
    ensures |ps| == |ms| && forall k :: 0 <= k < |ps| ==> ps[k] == Sending(ms[k].source, Message(h, 0, 0))
  {
    seq(|ms|, k requires 0 <= k < |ms| => Sending(ms[k].source, Message(h, 0, 0)))
  }

  function Drops(ms: seq<Message>): (fs: seq<Fate>)
    ensures |fs| == |ms| && forall k :: 0 <= k < |fs| ==> fs[k] == Dropped(ms[k])
  {
    seq(|ms|, k requires 0 <= k < |ms| => Dropped(ms[k]))
  }

  lemma DropsPlus(ms: seq<Message>)
    requires ms != []
    ensures [Dropped(ms[0])] + Drops(ms[1..]) == Drops(ms)
  {
  }

  lemma NotesPlus(h: Handle, ms: seq<Message>)
    requires ms != []
    ensures [Sending(ms[0].source, Message(h, 0, 0))] + Notes(h, ms[1..]) == Notes(h, ms)
  {
  }

  /** All messages of the queue dropped, the queue freed and the agent free. */
  function Emptied(s: State, i: nat, q: Queue): State
    requires i < |s.agents| && q in s.queues
  {
    var d := s.queues[q];
    s.(queues := s.queues - {q},
       past := s.past + [d.(inGlobal := false, messages := [], gone := d.gone + Drops(d.messages))],
       agents := s.agents[i := Idle] + Notes(d.handle, d.messages))
  }

  /** The state after one message has been dropped. */
  function OneDropped(s: State, q: Queue): State
    requires q in s.queues && s.queues[q].messages != []
  {
    var d := s.queues[q];
    s.(queues := s.queues[q := d.(
         messages := d.messages[1..], gone := d.gone + [Dropped(d.messages[0])], hand := None)],
       agents := s.agents + [Sending(d.messages[0].source, Message(d.handle, 0, 0))])
  }

  lemma SetThenAppend<T>(a: seq<T>, i: nat, x: T, y: T)
    requires i < |a|
    ensures (a + [y])[i := x] == a[i := x] + [y]
  {
  }

  lemma EmptiedPlus(s: State, i: nat, q: Queue)
    requires i < |s.agents| && q in s.queues && s.queues[q].messages != [] && s.queues[q].hand == None
    ensures Emptied(OneDropped(s, q), i, q) == Emptied(s, i, q)
  {
    var d, t := s.queues[q], OneDropped(s, q);
    var ms := d.messages;
    var note := Sending(ms[0].source, Message(d.handle, 0, 0));
    DropsPlus(ms);
    NotesPlus(d.handle, ms);
    Joined(d.gone, [Dropped(ms[0])], Drops(ms[1..]));
    SetThenAppend(s.agents, i, Idle, note);
    Joined(s.agents[i := Idle], [note], Notes(d.handle, ms[1..]));
    hide Drops, Notes;
    assert t.queues - {q} == s.queues - {q};
  }

  lemma {:induction false} DropsReach(s: State, i: nat, w: int, q: Queue)
    requires i < |s.agents| && s.agents[i] == Dropping(q) && q in s.queues && q !in s.global
    requires s.queues[q].handle != 0 && s.queues[q].hand == None
    ensures Reaches(s, i, w, Emptied(s, i, q))
    decreases |s.queues[q].messages|
  {
    hide Step, Reaches, Run;
    var d := s.queues[q];
    if d.messages == [] {
      DoFree(s, i, w);
      assert d.gone + Drops([]) == d.gone && s.agents[i := Idle] + Notes(d.handle, []) == s.agents[i := Idle];
      StepReaches(s, i, w, Emptied(s, i, q));
    } else {
      hide Emptied;
      DoDrop(s, i, w);
      DropsReach(OneDropped(s, q), i, w, q);
      EmptiedPlus(s, i, q);
      NextReaches(s, i, w, OneDropped(s, q), Emptied(s, i, q));
    }
  }

  /** A worker that has taken the queue of a service that is gone: every message is dropped in its order, the sender of
      each is told, the queue is freed and the worker is free. */
  lemma DropTurn(s: State, i: nat, w: int, q: Queue)
    requires Inv(s) && i < |s.agents| && s.agents[i] == Held(q) && q in s.queues && s.queues[q].release
    ensures
      var d := s.queues[q];
      var n := |d.messages|;
      Reaches(s, i, w, s.(
        queues := s.queues - {q},
        past := s.past + [d.(
          inGlobal := false, messages := [],
          gone := d.gone + seq(n, k requires 0 <= k < n => Dropped(d.messages[k])))],
        agents := s.agents[i := Idle] +
          seq(n, k requires 0 <= k < n => Sending(d.messages[k].source, Message(d.handle, 0, 0)))))
  {
    hide Inv, Step, Reaches, Run;
    HeldKnown(s, i, q);
    var d := s.queues[q];
    var n := |d.messages|;
    var s1 := At(s, i, Disposing(q));
    var s2 := At(s, i, Dropping(q));
    DoTake(s, i, w);
    DoDispose(s1, i, w);
    assert s1.agents[i := Dropping(q)] == s2.agents;
    DropsReach(s2, i, w, q);
    assert s2.agents[i := Idle] == s.agents[i := Idle];
    assert Drops(d.messages) == seq(n, k requires 0 <= k < n => Dropped(d.messages[k]));
    assert Notes(d.handle, d.messages) ==
      seq(n, k requires 0 <= k < n => Sending(d.messages[k].source, Message(d.handle, 0, 0)));
    var end := s.(queues := s.queues - {q},
                  past := s.past + [d.(inGlobal := false, messages := [], gone := d.gone + Drops(d.messages))],
                  agents := s.agents[i := Idle] + Notes(d.handle, d.messages));
    NextReaches(s1, i, w, s2, end);
    NextReaches(s, i, w, s1, end);
  }

  /** A service that is out of the table and not yet deleted: its queue goes back to the end of the global list. */
  lemma WaitTurn(s: State, i: nat, w: int, q: Queue)
    requires Inv(s) && i < |s.agents| && s.agents[i] == Held(q) && q in s.queues && !s.queues[q].release
    requires s.queues[q].handle !in s.table
    ensures Reaches(s, i, w, s.(global := s.global + [q], agents := s.agents[i := Idle]))
  {
    hide Inv, Step, Reaches, Run;
    HeldKnown(s, i, q);
    var s1 := At(s, i, Disposing(q));
    var s2 := At(s.(global := s.global + [q]), i, Idle);
    DoTake(s, i, w);
    DoDispose(s1, i, w);
    assert s1.agents[i := Idle] == s2.agents;
    StepReaches(s1, i, w, s2);
    NextReaches(s, i, w, s1, s2);
  }
}
