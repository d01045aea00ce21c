/** The timer of skynet_timer.c: five levels of lists updated in place, against the plain rule
    that a timer fires at the tick that was its time of adding plus its delay. */
module Timer {
  import opened Common
  import opened TimerWheel

  /** Who is told, and with which session. */
  datatype Event = Event(handle: nat, session: int)

  datatype Node = Node(expire: Tick, event: Event)

  /** A request to be told after `delay` ticks. */
  datatype Request = Request(delay: int, event: Event)

  /** A timer on the unwrapped time line. */
  datatype Job = Job(due: nat, event: Event)

  /** `skynet_timeout` passes a positive `int`. */
  predicate IsDelay(d: int) { 0 < d < 0x8000_0000 }

  predicate AreDelays(rs: seq<Request>) { forall r <- rs :: IsDelay(r.delay) }

  /** The events of a list that expire at `e`, in list order. */
  function Select(list: seq<Node>, e: Tick): seq<Event> {
    if list == [] then [] else
      Select(list[..|list| - 1], e) + if list[|list| - 1].expire == e then [list[|list| - 1].event] else []
  }

  /** The events due at `tick`, in the order they were added. */
  function DueAt(jobs: seq<Job>, tick: nat): seq<Event> {
    if jobs == [] then [] else
      DueAt(jobs[..|jobs| - 1], tick) + if jobs[|jobs| - 1].due == tick then [jobs[|jobs| - 1].event] else []
  }

  /** The only tick later than `now - 1` and less than half a lap after `now` that reads `e`. */
  function Unwrap(e: Tick, now: nat): (r: nat)
    ensures r % WRAP == e && now <= r < now + WRAP
  {
    now + (e - now) % WRAP
  }

  /** `move_list` at time `t`: what goes to list `s`. */
  function Share(list: seq<Node>, s: Slot, t: Tick): seq<Node> {
    if list == [] then [] else
      Share(list[..|list| - 1], s, t) +
      if SlotOf(list[|list| - 1].expire, t) == s then [list[|list| - 1]] else []
  }

  function Jobs(rs: seq<Request>, now: nat): (js: seq<Job>)
    requires AreDelays(rs)
    ensures |js| == |rs|
    ensures forall k :: 0 <= k < |js| ==> js[k] == Job(now + rs[k].delay, rs[k].event)
  {
    seq(|rs|, k requires 0 <= k < |rs| => assert rs[k] in rs; Job(now + rs[k].delay, rs[k].event))
  }

  lemma {:induction false} SelectConcat(a: seq<Node>, b: seq<Node>, e: Tick)
    ensures Select(a + b, e) == Select(a, e) + Select(b, e)
  {
    if b == [] {
      assert a + b == a;
    } else {
      assert (a + b)[..|a + b| - 1] == a + b[..|b| - 1];
      SelectConcat(a, b[..|b| - 1], e);
    }
  }

  /** Redistribution keeps what expires at `e` together and in order. */
  lemma {:induction false} SelectShare(list: seq<Node>, s: Slot, t: Tick, e: Tick)
    ensures Select(Share(list, s, t), e) == if SlotOf(e, t) == s then Select(list, e) else []
  {
    if list != [] {
      var front, last := list[..|list| - 1], list[|list| - 1];
      SelectShare(front, s, t, e);
      SelectConcat(Share(front, s, t), if SlotOf(last.expire, t) == s then [last] else [], e);
    }
  }

  lemma DueAtPush(jobs: seq<Job>, j: Job, tick: nat)
    ensures DueAt(jobs + [j], tick) == DueAt(jobs, tick) + if j.due == tick then [j.event] else []
  {
    assert (jobs + [j])[..|jobs + [j]| - 1] == jobs;
  }

  lemma {:induction false} DueAtNever(jobs: seq<Job>, tick: nat)
    requires forall j <- jobs :: j.due != tick
    ensures DueAt(jobs, tick) == []
  {
    if jobs != [] { DueAtNever(jobs[..|jobs| - 1], tick); }
  }

  /** Within one lap of `now` a wrapped expiry stands for one tick only. */
  lemma UnwrapOf(due: nat, now: nat, e: Tick)
    requires now <= due < now + WRAP
    ensures Unwrap(e, now) == due <==> e == due % WRAP
  {
  }

  lemma UnwrapNext(e: Tick, now: nat)
    requires e != now % WRAP
    ensures Unwrap(e, now + 1) == Unwrap(e, now)
  {
    var r := Unwrap(e, now);
    UnwrapOf(r, now + 1, e);
  }

  lemma WaitingPush(jobs: seq<Job>, j: Job, now: nat, e: Tick)
    requires now <= j.due < now + WRAP
    ensures DueAt(jobs + [j], Unwrap(e, now)) ==
      DueAt(jobs, Unwrap(e, now)) + if e == j.due % WRAP then [j.event] else []
  {
    UnwrapOf(j.due, now, e);
    DueAtPush(jobs, j, Unwrap(e, now));
  }

  lemma SelectPush(list: seq<Node>, n: Node, e: Tick)
    ensures Select(list + [n], e) == Select(list, e) + if n.expire == e then [n.event] else []
  {
    assert (list + [n])[..|list + [n]| - 1] == list;
  }

  /** One list across the addition of a node. */
  lemma ListPush(list: seq<Node>, list': seq<Node>, n: Node, s: Slot, e: Tick, t: Tick, w: seq<Event>, w': seq<Event>)
    requires list' == list + if s == SlotOf(n.expire, t) then [n] else []
    requires Select(list, e) == if SlotOf(e, t) == s then w else []
    requires w' == w + if e == n.expire then [n.event] else []
    ensures Select(list', e) == if SlotOf(e, t) == s then w' else []
  {
    hide SlotOf, Select;
    SelectPush(list, n, e);
    assert list + [] == list;
  }

  lemma AddFiled(lists: imap<Slot, seq<Node>>, lists': imap<Slot, seq<Node>>, jobs: seq<Job>, job: Job, now: nat,
                 time: Tick, node: Node)
    requires FiledIn(lists, jobs, now, time, true) && now < job.due < now + WRAP
    requires node == Node(job.due % WRAP, job.event) && node.expire != time
    requires forall s :: IsSlot(s) ==>
      s in lists && s in lists' && lists'[s] == lists[s] + if s == SlotOf(node.expire, time) then [node] else []
    ensures FiledIn(lists', jobs + [job], now, time, true)
  {
    hide SlotOf, Unwrap, DueAt, Select;
    forall s, e: Tick | IsSlot(s)
      ensures FiledAt(lists', jobs + [job], now, time, true, s, e)
    {
      assert FiledAt(lists, jobs, now, time, true, s, e);
      WaitingPush(jobs, job, now, e);
      ListPush(lists[s], lists'[s], node, s, e, time, WaitingIn(jobs, now, time, e, true),
               WaitingIn(jobs + [job], now, time, e, true));
    }
  }

  lemma ShiftFiled(lists: imap<Slot, seq<Node>>, lists': imap<Slot, seq<Node>>, jobs: seq<Job>, now: nat, time: Tick,
                   m: Slot)
    requires FiledIn(lists, jobs, now, time, true) && time == now % WRAP && IsSlot(m) && m in lists &&
      Moved(Next(time)) == Some(m)
    requires forall j <- jobs :: j.due < now + HALF
    requires forall s :: IsSlot(s) ==>
      s in lists && s in lists' && lists'[s] == (if s == m then [] else lists[s]) + Share(lists[m], s, Next(time))
    ensures FiledIn(lists', jobs, now + 1, Next(time), false)
  {
    hide SlotOf, Share, Select, DueAt, Unwrap, Moved, Ahead;
    var now', time' := now + 1, Next(time);
    forall s, e: Tick | IsSlot(s)
      ensures FiledAt(lists', jobs, now', time', false, s, e)
    {
      assert FiledAt(lists, jobs, now, time, true, s, e);
      assert FiledAt(lists, jobs, now, time, true, m, e);
      WaitingNext(jobs, now, e);
      ShiftMoves(s, m, e, time, lists[s], lists[m], WaitingIn(jobs, now, time, e, true));
    }
  }

  lemma StayFiled(lists: imap<Slot, seq<Node>>, jobs: seq<Job>, now: nat, time: Tick)
    requires FiledIn(lists, jobs, now, time, true) && time == now % WRAP && Moved(Next(time)) == None
    requires forall j <- jobs :: j.due < now + HALF
    ensures FiledIn(lists, jobs, now + 1, Next(time), false)
  {
    hide SlotOf, Select, DueAt, Unwrap, Moved, Ahead;
    var now', time' := now + 1, Next(time);
    forall s, e: Tick | IsSlot(s)
      ensures FiledAt(lists, jobs, now', time', false, s, e)
    {
      assert FiledAt(lists, jobs, now, time, true, s, e);
      WaitingNext(jobs, now, e);
      ShiftKeeps(s, e, time, lists[s], WaitingIn(jobs, now, time, e, true));
    }
  }

  lemma DispatchFiled(lists: imap<Slot, seq<Node>>, lists': imap<Slot, seq<Node>>, jobs: seq<Job>, now: nat, time: Tick)
    requires FiledIn(lists, jobs, now, time, false)
    requires forall s :: IsSlot(s) ==>
      s in lists && s in lists' && lists'[s] == if s == Near(time % NEAR) then [] else lists[s]
    ensures FiledIn(lists', jobs, now, time, true)
  {
    hide SlotOf, Select, DueAt, Unwrap;
    forall s, e: Tick | IsSlot(s)
      ensures FiledAt(lists', jobs, now, time, true, s, e)
    {
      assert FiledAt(lists, jobs, now, time, false, s, e);
      NearNow(e, time);
      SelectNone(e);
    }
  }

  lemma DelayedIsLater(now: nat, d: int)
    requires IsDelay(d)
    ensures (now + d) % WRAP != now % WRAP
  {
  }

  lemma WrappedSum(now: nat, d: nat)
    ensures (now % WRAP + d) % WRAP == (now + d) % WRAP
  {
  }

  /** A list whose nodes all expire at `e` is dispatched as one selection. */
  lemma {:induction false} SelectAll(list: seq<Node>, e: Tick)
    requires forall n <- list :: n.expire == e
    ensures Select(list, e) == Events(list)
  {
    if list != [] {
      SelectAll(list[..|list| - 1], e);
      assert Events(list) == Events(list[..|list| - 1]) + [list[|list| - 1].event];
    }
  }

  lemma {:induction false} SelectNonEmpty(list: seq<Node>, k: nat)
    requires k < |list|
    ensures Select(list, list[k].expire) != []
  {
    if k < |list| - 1 {
      SelectNonEmpty(list[..|list| - 1], k);
    }
  }

  function Events(list: seq<Node>): (r: seq<Event>)
    ensures |r| == |list|
    ensures forall k :: 0 <= k < |r| ==> r[k] == list[k].event
  {
    seq(|list|, k requires 0 <= k < |list| => list[k].event)
  }

  /** The events that expire at `e` and have not been dispatched. */
  function WaitingIn(jobs: seq<Job>, now: nat, time: Tick, e: Tick, dispatched: bool): seq<Event> {
    if dispatched && e == time then [] else DueAt(jobs, Unwrap(e, now))
  }

  /** The list of a timer is a function of its expiry and the time alone, and timers with the same
      expiry stand in it in the order they were added. Once a tick is `dispatched` its timers are gone. */
  ghost predicate FiledIn(lists: imap<Slot, seq<Node>>, jobs: seq<Job>, now: nat, time: Tick, dispatched: bool) {
    forall s, e: Tick :: IsSlot(s) ==> FiledAt(lists, jobs, now, time, dispatched, s, e)
  }

  ghost predicate FiledAt(lists: imap<Slot, seq<Node>>, jobs: seq<Job>, now: nat, time: Tick, dispatched: bool,
                          s: Slot, e: Tick)
  {
    s in lists &&
    Select(lists[s], e) == if SlotOf(e, time) == s then WaitingIn(jobs, now, time, e, dispatched) else []
  }

  class Timer {
    /** `near` and `t`: each linked list is kept as the sequence of its nodes. */
    const near: array<seq<Node>>
    const level: array2<seq<Node>>
    var time: Tick

    /** The number of ticks so far, every timer ever added, and what each tick dispatched. */
    ghost var now: nat
    ghost var added: seq<Job>
    ghost var fired: seq<seq<Event>>

    ghost predicate Shape()
    {
      near.Length == NEAR && level.Length0 == 4 && level.Length1 == LEVEL
    }

    ghost function ListAt(s: Slot): seq<Node>
      requires Shape() && IsSlot(s)
      reads near, level
    {
      if s.Near? then near[s.j] else level[s.i, s.j]
    }

    /** All lists at once. */
    ghost function Lists(): (r: imap<Slot, seq<Node>>)
      requires Shape()
      reads near, level
      ensures forall s :: IsSlot(s) ==> s in r && r[s] == ListAt(s)
    {
      imap s | IsSlot(s) :: ListAt(s)
    }

    ghost predicate Filed(dispatched: bool)
      requires Shape()
      reads this, near, level
    {
      FiledIn(Lists(), added, now, time, dispatched)
    }

    /** No timer lies half a lap ahead or further. */
    ghost predicate InReach()
      reads this
    {
      forall j <- added :: j.due < now + HALF
    }

    /** Each of the first `n` ticks dispatched exactly the timers due then, in the order they were added. */
    ghost predicate Punctual(n: nat)
      reads this
    {
      |fired| == n && forall k :: 0 <= k < n ==> fired[k] == DueAt(added, k)
    }

    ghost predicate Consistent(dispatched: bool)
      reads this, near, level
    {
      Shape() && time == now % WRAP && InReach() && Filed(dispatched) &&
      Punctual(if dispatched then now + 1 else now)
    }

    ghost predicate Valid()
      reads this, near, level
    {
      Consistent(true)
    }

    lemma WhatFired()
      requires Valid()
      ensures |fired| == now + 1 && forall k :: 0 <= k <= now ==> fired[k] == DueAt(added, k)
    {
    }

    /** `timer_create_timer` */
    constructor ()
      ensures Valid() && now == 0 && added == [] && fired == [[]]
      ensures fresh(near) && fresh(level)
    {
      near := new seq<Node>[NEAR](_ => []);
      level := new seq<Node>[4, LEVEL]((_, _) => []);
      time := 0;
      now, added, fired := 0, [], [[]];
    }

    /** `add_node` */
    method AddNode(node: Node)
      requires Shape()
      modifies near, level
      ensures forall s :: IsSlot(s) ==>
        ListAt(s) == old(ListAt(s)) + if s == SlotOf(node.expire, time) then [node] else []
    {
      hide LevelOf;
      var e := node.expire;
      if e / NEAR == time / NEAR {
        near[e % NEAR] := near[e % NEAR] + [node];
      } else {
        var i, j := FindLevel(e, time);
        level[i, j] := level[i, j] + [node];
      }
    }

    /** `timer_add`; the source holds the lock throughout. */
    method TimerAdd(r: Request)
      requires Valid() && IsDelay(r.delay)
      modifies this`added, near, level
      ensures Valid()
      ensures added == old(added) + [Job(now + r.delay, r.event)]
    {
      hide SlotOf, Unwrap, DueAt, Select, FiledIn;
      var node := Node((time + r.delay) % WRAP, r.event);
      ghost var job := Job(now + r.delay, r.event);
      WrappedSum(now, r.delay);
      DelayedIsLater(now, r.delay);
      ghost var lists := Lists();
      AddNode(node);
      added := added + [job];
      AddFiled(lists, Lists(), old(added), job, now, time, node);
      forall k: nat | k <= now
        ensures DueAt(added, k) == DueAt(old(added), k)
      {
        DueAtPush(old(added), job, k);
      }
    }

    /** The requests of other threads that get the lock one after the other. */
    method TimerAddAll(rs: seq<Request>)
      requires Valid() && AreDelays(rs)
      modifies this`added, near, level
      ensures Valid()
      ensures added == old(added) + Jobs(rs, now)
    {
      var k := 0;
      while k < |rs|
        invariant 0 <= k <= |rs| && Valid()
        invariant added == old(added) + Jobs(rs, now)[..k]
      {
        hide Consistent;
        TimerAdd(rs[k]);
        k := k + 1;
      }
    }

    /** `move_list` */
    method MoveList(i: nat, j: nat)
      requires Shape() && i < 4 && j < LEVEL
      modifies near, level
      ensures forall s :: IsSlot(s) ==>
        ListAt(s) == (if s == Level(i, j) then [] else old(ListAt(s))) + Share(old(level[i, j]), s, time)
    {
      hide SlotOf, Share;
      var list := level[i, j];
      level[i, j] := [];
      var k := 0;
      forall s | IsSlot(s) ensures Share(list[..0], s, time) == [] { ShareNone(s, time); }
      while k < |list|
        invariant 0 <= k <= |list|
        invariant forall s :: IsSlot(s) ==>
          ListAt(s) == (if s == Level(i, j) then [] else old(ListAt(s))) + Share(list[..k], s, time)
      {
        AddNode(list[k]);
        forall s | IsSlot(s)
          ensures ListAt(s) == (if s == Level(i, j) then [] else old(ListAt(s))) + Share(list[..k + 1], s, time)
        {
          SharePush(if s == Level(i, j) then [] else old(ListAt(s)), list, k, s, time);
        }
        k := k + 1;
      }
      assert list[..|list|] == list;
    }

    /** `timer_shift` */
    method TimerShift()
      requires Valid()
      modifies this`time, this`now, near, level
      ensures Consistent(false)
      ensures now == old(now) + 1
    {
      hide SlotOf, Share, Select, DueAt, Unwrap, Moved, Ahead, FiledIn, Next;
      ghost var lists, was, m := Lists(), time, now;
      time := Next(time);
      now := now + 1;
      NextTick(m);
      var moved := FindMoved(time);
      if moved.Some? {
        MoveList(moved.value.i, moved.value.j);
        assert FiledIn(Lists(), added, now, time, false) by {
          ShiftFiled(lists, Lists(), added, m, was, moved.value);
        }
      } else {
        assert Lists() == lists;
        StayFiled(lists, added, m, was);
      }
    }

    /** The list of the current tick holds what expires now and nothing else. */
    lemma CurrentList(dispatched: bool)
      requires Consistent(dispatched)
      ensures Events(near[time % NEAR]) == if dispatched then [] else DueAt(added, now)
    {
      var s := Near(time % NEAR);
      var list := ListAt(s);
      NearNow(time, time);
      UnwrapOf(now, now, time);
      forall k | 0 <= k < |list|
        ensures list[k].expire == time
      {
        SelectNonEmpty(list, k);
        assert FiledAt(Lists(), added, now, time, dispatched, s, list[k].expire);
        NearNow(list[k].expire, time);
      }
      SelectAll(list, time);
      assert FiledAt(Lists(), added, now, time, dispatched, s, time);
      assert Select(Lists()[s], time) == WaitingIn(added, now, time, time, dispatched);
    }

    /** With an empty list there is nothing to dispatch. */
    lemma Quiet()
      requires Consistent(false) && near[time % NEAR] == []
      ensures DueAt(added, now) == [] && FiledIn(Lists(), added, now, time, true)
    {
      hide SlotOf, DueAt, Unwrap, Select, FiledIn;
      CurrentList(false);
      assert ListAt(Near(time % NEAR)) == [];
      assert Events([]) == [];
      DispatchFiled(Lists(), Lists(), added, now, time);
    }

    /** `link_clear` on the current list, and `dispatch_list`, which pushes one message per node. */
    method Dispatch() returns (out: seq<Event>)
      requires Consistent(false)
      modifies this`fired, near
      ensures Valid()
      ensures out == DueAt(added, now)
      ensures fired == old(fired) + [out]
    {
      hide SlotOf, DueAt, Unwrap, Select, FiledIn;
      CurrentList(false);
      ghost var lists := Lists();
      var list := near[time % NEAR];
      near[time % NEAR] := [];
      out := Events(list);
      fired := fired + [out];
      DispatchFiled(lists, Lists(), added, now, time);
    }

    /** `timer_execute`; `arrivals` are the requests that other threads make while the lock is
        released for dispatching. They never reach the list that is being dispatched. */
    method TimerExecute(arrivals: seq<Request>, ghost dispatched: bool) returns (out: seq<Event>)
      requires Consistent(dispatched) && AreDelays(arrivals)
      modifies this`added, this`fired, near, level
      ensures Valid()
      ensures out == if dispatched then [] else DueAt(old(added), now)
      ensures fired == if dispatched then old(fired) else old(fired) + [out]
      ensures added == old(added) + if out == [] then [] else Jobs(arrivals, now)
    {
      hide DueAt, SlotOf, Select, FiledIn;
      out := [];
      var idx := time % NEAR;
      ghost var done := dispatched;
      CurrentList(done);
      while near[idx] != []
        invariant Consistent(done) && Events(near[idx]) == if done then [] else DueAt(added, now)
        invariant done == dispatched ==> out == [] && added == old(added) && fired == old(fired)
        invariant done != dispatched ==> done && out != [] && out == DueAt(old(added), now)
        invariant done != dispatched ==> fired == old(fired) + [out] && added == old(added) + Jobs(arrivals, now)
        decreases if done then 0 else 1
      {
        var list := Dispatch();
        out := out + list;
        done := true;
        TimerAddAll(arrivals);
        CurrentList(true);
      }
      if !done {
        Quiet();
        fired := fired + [out];
      }
    }

    /** `timer_update`; `early` and `late` arrive while its two dispatches have released the lock.
        The first dispatch finds nothing, so the lock is not even released there. */
    method TimerUpdate(early: seq<Request>, late: seq<Request>) returns (out: seq<Event>)
      requires Valid() && AreDelays(early) && AreDelays(late)
      modifies this`time, this`now, this`added, this`fired, near, level
      ensures Valid()
      ensures now == old(now) + 1
      ensures out == DueAt(old(added), now)
      ensures fired == old(fired) + [out]
      ensures added == old(added) + if out == [] then [] else Jobs(late, now)
    {
      hide Consistent;
      out := TimerExecute(early, true);
      assert added == old(added);
      TimerShift();
      out := TimerExecute(late, false);
    }

    /** `skynet_timeout`: what is not in the future is told at once. */
    method Timeout(r: Request) returns (told: seq<Event>)
      requires Valid() && r.delay < HALF
      modifies this`added, near, level
      ensures Valid()
      ensures r.delay <= 0 ==> told == [r.event] && added == old(added)
      ensures r.delay > 0 ==> told == [] && added == old(added) + [Job(now + r.delay, r.event)]
    {
      hide Consistent;
      if r.delay <= 0 {
        told := [r.event];
      } else {
        TimerAdd(r);
        told := [];
      }
    }
  }

  /** What happens to a timer: a request, or an update during which further requests come in. */
  datatype Op = Add(request: Request) | Update(early: seq<Request>, late: seq<Request>)

  predicate IsOp(op: Op) {
    match op
    case Add(r) => IsDelay(r.delay)
    case Update(early, late) => AreDelays(early) && AreDelays(late)
  }

  predicate AreOps(ops: seq<Op>) { forall k :: 0 <= k < |ops| ==> IsOp(ops[k]) }

  /** The number of updates. */
  function Ticks(ops: seq<Op>): nat {
    if ops == [] then 0 else Ticks(ops[..|ops| - 1]) + if ops[|ops| - 1].Update? then 1 else 0
  }

  /** Everything requested, each timer due its delay after the tick of its request. */
  function Requested(ops: seq<Op>): seq<Job>
    requires AreOps(ops)
  {
    if ops == [] then [] else
      var before := Requested(ops[..|ops| - 1]);
      var now := Ticks(ops[..|ops| - 1]);
      match ops[|ops| - 1]
      case Add(r) => before + [Job(now + r.delay, r.event)]
      case Update(_, late) =>
        before + if DueAt(before, now + 1) == [] then [] else Jobs(late, now + 1)
  }

  /** Any run from the start: tick `k` dispatches exactly the timers due at `k`, in the order they were
      requested. What `Requested` says of delays is not wrapped, the time of the machine is. */
  method Run(ops: seq<Op>) returns (log: seq<seq<Event>>)
    requires AreOps(ops)
    ensures |log| == Ticks(ops) + 1
    ensures forall k :: 0 <= k < |log| ==> log[k] == DueAt(Requested(ops), k)
  {
    hide Timer.Consistent, DueAt;
    var timer := new Timer();
    log := [[]];
    var n := 0;
    while n < |ops|
      invariant 0 <= n <= |ops|
      invariant fresh(timer) && fresh(timer.near) && fresh(timer.level)
      invariant timer.Valid() && timer.fired == log
      invariant timer.now == Ticks(ops[..n]) && timer.added == Requested(ops[..n])
    {
      assert ops[..n + 1][..n] == ops[..n];
      match ops[n] {
        case Add(r) =>
          timer.TimerAdd(r);
        case Update(early, late) =>
          var out := timer.TimerUpdate(early, late);
          log := log + [out];
      }
      n := n + 1;
    }
    assert ops[..|ops|] == ops;
    timer.WhatFired();
  }

  lemma SelectNone(e: Tick)
    ensures Select([], e) == []
  {
  }

  lemma ShareNone(s: Slot, t: Tick)
    ensures Share([], s, t) == []
  {
  }

  lemma SharePush(base: seq<Node>, list: seq<Node>, k: nat, s: Slot, t: Tick)
    requires k < |list|
    ensures base + Share(list[..k + 1], s, t) ==
      base + Share(list[..k], s, t) + if s == SlotOf(list[k].expire, t) then [list[k]] else []
  {
    assert list[..k + 1][..k] == list[..k];
  }

  lemma NextTick(now: nat)
    ensures Next(now % WRAP) == (now + 1) % WRAP
  {
  }

  /** Timers still waiting when the time advances are ahead of it. */
  lemma WaitingNext(jobs: seq<Job>, now: nat, e: Tick)
    requires forall j <- jobs :: j.due < now + HALF
    ensures e != now % WRAP && DueAt(jobs, Unwrap(e, now)) != [] ==> Ahead(e, now % WRAP)
    ensures DueAt(jobs, Unwrap(e, now + 1)) == if e == now % WRAP then [] else DueAt(jobs, Unwrap(e, now))
  {
    if e == now % WRAP {
      UnwrapOf(now + WRAP, now + 1, e);
      DueAtNever(jobs, now + WRAP);
    } else {
      UnwrapNext(e, now);
      if Unwrap(e, now) >= now + HALF {
        DueAtNever(jobs, Unwrap(e, now));
      } else {
        UnwrapAhead(e, now);
      }
    }
  }

  lemma UnwrapAhead(e: Tick, now: nat)
    requires e != now % WRAP && Unwrap(e, now) < now + HALF
    ensures Ahead(e, now % WRAP)
  {
    assert (e - now % WRAP) % WRAP == (e - now) % WRAP;
  }

  /** One list across a shift that redistributes nothing. */
  lemma ShiftKeeps(s: Slot, e: Tick, t: Tick, list: seq<Node>, w: seq<Event>)
    requires Moved(Next(t)) == None && (w != [] ==> Ahead(e, t))
    requires Select(list, e) == if SlotOf(e, t) == s then w else []
    ensures Select(list, e) == if SlotOf(e, Next(t)) == s then w else []
  {
    if w != [] { SlotStays(e, t); }
  }

  /** One list across a shift that redistributes the list of `m`. */
  lemma ShiftMoves(s: Slot, m: Slot, e: Tick, t: Tick, list: seq<Node>, moved: seq<Node>, w: seq<Event>)
    requires Moved(Next(t)) == Some(m) && (w != [] ==> Ahead(e, t))
    requires Select(list, e) == if SlotOf(e, t) == s then w else []
    requires Select(moved, e) == if SlotOf(e, t) == m then w else []
    ensures Select((if s == m then [] else list) + Share(moved, s, Next(t)), e) ==
      if SlotOf(e, Next(t)) == s then w else []
  {
    hide Share, Select, SlotOf, Moved, Ahead;
    SelectNone(e);
    SelectConcat(if s == m then [] else list, Share(moved, s, Next(t)), e);
    SelectShare(moved, s, Next(t), e);
    if w != [] && SlotOf(e, t) != m { SlotStays(e, t); }
  }

  /** The loop of `timer_shift`; `mask` stays within an `int` and `i` within the four levels. */
  method FindMoved(time: Tick) returns (r: Option<Slot>)
    ensures r == Moved(time)
  {
    if time == 0 { return Some(Level(3, 0)); }
    hide MovedFrom;
    var i, mask, t := 0, NEAR, time / NEAR;
    while time % mask == 0
      invariant 0 <= i <= 3 && mask == Span(i) && t == time / mask
      invariant i > 0 ==> time % NEAR == 0 && time % mask == 0
      invariant MovedFrom(0, time / NEAR) == MovedFrom(i, t)
      decreases 3 - i
    {
      var j := t % LEVEL;
      MovedStep(i, t);
      if j != 0 { return Some(Level(i, j)); }
      TopSpan(time, i);
      NextSpan(time, i);
      NextMask(time, i);
      mask, t, i := mask * LEVEL, t / LEVEL, i + 1;
    }
    return None;
  }

  lemma MovedStep(i: nat, t: nat)
    requires i <= 3
    ensures t % LEVEL != 0 || i == 3 ==> MovedFrom(i, t) == Level(i, t % LEVEL)
    ensures t % LEVEL == 0 && i < 3 ==> MovedFrom(i, t) == MovedFrom(i + 1, t / LEVEL)
  {
  }

  /** At the highest level a time other than 0 that is at the start of a cell is found. */
  lemma TopSpan(time: Tick, i: nat)
    requires i <= 3 && time != 0 && time % Span(i) == 0 && (time / Span(i)) % LEVEL == 0
    ensures i < 3
  {
  }

  lemma NextMask(time: Tick, i: nat)
    requires i < 3 && time % Span(i) == 0 && (time / Span(i)) % LEVEL == 0
    ensures time % Span(i + 1) == 0
  {
  }

  /** Ticks per cell of level `i`. */
  function Span(i: nat): (r: nat)
    requires i <= 3
    ensures r > 0
  {
    if i == 0 then 0x100 else if i == 1 then 0x4000 else if i == 2 then 0x10_0000 else 0x400_0000
  }

  lemma NextSpan(x: nat, i: nat)
    requires i < 3
    ensures x / (Span(i) * LEVEL) == (x / Span(i)) / LEVEL == x / Span(i + 1)
  {
  }

  /** The loop of `add_node`. */
  method FindLevel(e: Tick, t: Tick) returns (i: nat, j: nat)
    requires e / NEAR != t / NEAR
    ensures i < 4 && j < LEVEL && Level(i, j) == SlotOf(e, t)
  {
    i := 0;
    var mask := NEAR * LEVEL;
    while i < 3 && e / mask != t / mask
      invariant 0 <= i <= 3 && mask == Span(i) * LEVEL
      invariant LevelOf(0, e / NEAR, t / NEAR) == LevelOf(i, e / Span(i), t / Span(i))
    {
      NextSpan(e, i);
      NextSpan(t, i);
      mask := mask * LEVEL;
      i := i + 1;
    }
    if i < 3 {
      NextSpan(e, i);
      NextSpan(t, i);
    }
    j := (e / Span(i)) % LEVEL;
  }
}
