/** What waits does get written: the turn of the socket thread on a socket that takes everything, and what becomes of a
    request that a thread makes while the others stand still. */
module SendProgress {
  import opened Common
  import opened SendPath
  import opened SendInvariant
  import opened SendSafety

  // ----- the socket thread -----

  /** The bytes of a list that have not been written. */
  function Waiting(list: seq<Buffer>): seq<Byte>
    requires Fits(list)
  {
    if list == [] then []
    else
      FitsRest(list);
      list[0].m.data[list[0].off..] + Waiting(list[1..])
  }

  lemma FitsRest(list: seq<Buffer>)
    requires Fits(list) && list != []
    ensures Fits(list[1..]) && list[0].off <= |list[0].m.data|
  {
    if |list| > 1 { assert list[1..][1..] == list[1..][1..]; }
  }

  /** `write` takes all the bytes that are offered to it. */
  function Takes(s: State): Wrote {
    if s.poller.High? && s.high != [] then Bytes(Rest(s.high[0]))
    else if s.poller.Low? && s.low != [] then Bytes(Rest(s.low[0]))
    else Bytes(0)
  }

  /** Steps of the socket thread in which every `write` takes all that is offered. */
  ghost predicate Full(s: State, acts: seq<Action>)
    decreases |acts|
  {
    acts != [] ==>
      acts[0] == Continue(Takes(s)) && Step(s, acts[0]).Next? && Full(Step(s, acts[0]).state, acts[1..])
  }

  ghost predicate Serves(s: State, t: State) { exists acts :: Full(s, acts) && Run(s, acts) == Next(t) }

  lemma ServesStay(s: State)
    ensures Serves(s, s)
  {
    assert Full(s, []) && Run(s, []) == Next(s);
  }

  lemma ServesNext(s: State, t: State, u: State)
    requires Step(s, Continue(Takes(s))) == Next(t) && Serves(t, u)
    ensures Serves(s, u)
  {
    hide Step, Takes;
    var acts :| Full(t, acts) && Run(t, acts) == Next(u);
    var all := [Continue(Takes(s))] + acts;
    assert all[0] == Continue(Takes(s)) && all[1..] == acts;
    assert Full(s, all) && Run(s, all) == Next(u);
  }

  /** Nothing waits, the event is off and the lock is free. */
  function Idle(s: State, more: seq<Byte>, ms: seq<Message>): State {
    s.(high := [], low := [], size := 0, dw := None, armed := false, lock := Free, poller := Polling,
       wire := s.wire + more, done := s.done + ms)
  }

  lemma FinishServes(s: State)
    requires s.high == [] && s.low == [] && s.size == 0 && s.dw == None && s.lock == ByPoller
    requires s.poller.High? || s.poller.Low?
    ensures Serves(s, Idle(s, [], []))
  {
    hide Serves;
    var s1 := s.(armed := false, poller := Releasing);
    var s2 := s1.(lock := Free, poller := Polling);
    assert Step(s, Continue(Takes(s))) == Next(s1);
    assert Step(s1, Continue(Takes(s1))) == Next(s2);
    ServesStay(s2);
    ServesNext(s1, s2, s2);
    ServesNext(s, s1, s2);
    assert s.wire + [] == s.wire && s.done + [] == s.done;
  }

  /** The first buffer of a list and the others. */
  lemma FirstWaiting(list: seq<Buffer>)
    requires Fits(list) && list != []
    ensures Fits(list[1..]) && Rest(list[0]) == |list[0].m.data| - list[0].off
    ensures Waiting(list) == Chunk(list[0], Rest(list[0])) + Waiting(list[1..])
    ensures Messages(list) == [list[0].m] + Messages(list[1..])
    ensures Total(list) == Rest(list[0]) + Total(list[1..])
  {
    FitsRest(list);
  }

  lemma IdlePlus(s: State, t: State, a: seq<Byte>, x: seq<Message>, b: seq<Byte>, y: seq<Message>)
    requires t == s.(high := t.high, low := t.low, size := t.size, dw := t.dw, wire := s.wire + a, done := s.done + x,
                     poller := t.poller)
    ensures Idle(t, b, y) == Idle(s, a + b, x + y)
  {
    assert s.wire + a + b == s.wire + (a + b) && s.done + x + y == s.done + (x + y);
  }

  lemma {:induction false} LowServes(s: State)
    requires s.poller.Low? && s.high == [] && s.dw == None && s.lock == ByPoller
    requires Fits(s.low) && s.size == Total(s.low)
    ensures Serves(s, Idle(s, Waiting(s.low), Messages(s.low)))
    decreases |s.low|
  {
    hide Serves, Idle;
    if s.low == [] {
      FinishServes(s);
      assert Messages(s.low) == [];
    } else {
      FirstWaiting(s.low);
      LowStepAll(s);
      var t := LowAll(s);
      LowServes(t);
      hide LowAll;
      LowAllShape(s);
      IdlePlus(s, t, Chunk(s.low[0], Rest(s.low[0])), [s.low[0].m], Waiting(t.low), Messages(t.low));
      ServesNext(s, t, Idle(t, Waiting(t.low), Messages(t.low)));
    }
  }

  lemma LowAllShape(s: State)
    requires s.low != []
    ensures
      var b := s.low[0];
      LowAll(s) == s.(low := s.low[1..], wire := s.wire + Chunk(b, Rest(b)), size := s.size - Rest(b),
                      done := s.done + [b.m])
  {
  }

  lemma LowStepAll(s: State)
    requires s.poller.Low? && s.low != []
    ensures Step(s, Continue(Takes(s))) == Next(LowAll(s))
  {
  }

  lemma HighAllShape(s: State)
    requires s.high != []
    ensures
      var b := s.high[0];
      HighAll(s) == s.(high := s.high[1..], wire := s.wire + Chunk(b, Rest(b)), size := s.size - Rest(b),
                       done := s.done + [b.m])
  {
  }

  lemma HighStepAll(s: State)
    requires s.poller.High? && s.high != []
    ensures Step(s, Continue(Takes(s))) == Next(HighAll(s))
  {
  }

  lemma {:induction false} HighServes(s: State)
    requires s.poller.High? && s.dw == None && s.lock == ByPoller && Fits(s.high) && Fits(s.low)
    requires s.size == Total(s.high) + Total(s.low)
    ensures Serves(s, Idle(s, Waiting(s.high) + Waiting(s.low), Messages(s.high) + Messages(s.low)))
    decreases |s.high|
  {
    hide Serves, Idle, Step, Takes, Chunk, Waiting, Messages, HighAll, Fits;
    if s.high != [] {
      FirstWaiting(s.high);
      HighStepAll(s);
      var t := HighAll(s);
      HighAllShape(s);
      HighServes(t);
      var b := s.high[0];
      var a := Chunk(b, Rest(b));
      IdlePlus(s, t, a, [b.m], Waiting(t.high) + Waiting(t.low), Messages(t.high) + Messages(t.low));
      Joined(a, Waiting(t.high), Waiting(t.low));
      Joined([b.m], Messages(t.high), Messages(t.low));
      ServesNext(s, t, Idle(t, Waiting(t.high) + Waiting(t.low), Messages(t.high) + Messages(t.low)));
    } else {
      HighDone(s);
    }
  }

  lemma HighDone(s: State)
    requires s.poller.High? && s.dw == None && s.lock == ByPoller && s.high == []
    requires Fits(s.low) && s.size == Total(s.low)
    ensures Serves(s, Idle(s, Waiting([]) + Waiting(s.low), Messages([]) + Messages(s.low)))
  {
    hide Serves, Idle;
    assert Waiting([]) + Waiting(s.low) == Waiting(s.low) && Messages([]) + Messages(s.low) == Messages(s.low);
    if s.low == [] {
      FinishServes(s);
      assert Messages(s.low) == [];
    } else {
      var t := s.(poller := Low);
      assert Step(s, Continue(Takes(s))) == Next(t);
      LowServes(t);
      SamePoller(s, Waiting(s.low), Messages(s.low));
      ServesNext(s, t, Idle(t, Waiting(t.low), Messages(t.low)));
    }
  }

  lemma SamePoller(s: State, a: seq<Byte>, ms: seq<Message>)
    ensures Idle(s.(poller := Low), a, ms) == Idle(s, a, ms)
  {
  }

  /** Once the socket thread has taken the lock, everything that waits is written if every `write` takes all that is
      offered: the rest of the direct write first, then the high list, then the low list, byte for byte. Then nothing
      waits, the write event is off and the lock is free. */
  lemma DrainsAll(s: State)
    requires Inv(s) && s.poller.Merging?
    ensures (s.dw.Some? ==> s.dw.value.off <= |s.dw.value.m.data|) && Fits(s.high) && Fits(s.low)
    ensures
      var rest := if s.dw.Some? then s.dw.value.m.data[s.dw.value.off..] else [];
      var first := if s.dw.Some? then [s.dw.value.m] else [];
      Serves(s, s.(
        high := [], low := [], size := 0, dw := None, armed := false, lock := Free, poller := Polling,
        wire := s.wire + rest + Waiting(s.high) + Waiting(s.low),
        done := s.done + first + Messages(s.high) + Messages(s.low)))
  {
    hide Serves, Inv, Waiting, Messages, Idle, Step, Merge, Fits, Total;
    Merged(s);
    var t := Merge(s).(poller := High);
    HighServes(t);
    var a, ms := Waiting(t.high) + Waiting(t.low), Messages(t.high) + Messages(t.low);
    ServesNext(s, t, Idle(t, a, ms));
    MergedIdle(s, a, ms);
    MergedWaiting(s);
    var rest := if s.dw.Some? then s.dw.value.m.data[s.dw.value.off..] else [];
    var first := if s.dw.Some? then [s.dw.value.m] else [];
    Grouped(s.wire, rest, Waiting(s.high), Waiting(s.low));
    Grouped(s.done, first, Messages(s.high), Messages(s.low));
  }

  lemma Grouped<T>(w: seq<T>, a: seq<T>, b: seq<T>, c: seq<T>)
    ensures w + (a + b + c) == w + a + b + c
  {
  }

  lemma MergedIdle(s: State, a: seq<Byte>, ms: seq<Message>)
    ensures Idle(Merge(s).(poller := High), a, ms) == s.(
      high := [], low := [], size := 0, dw := None, armed := false, lock := Free, poller := Polling,
      wire := s.wire + a, done := s.done + ms)
  {
  }

  lemma Merged(s: State)
    requires Inv(s) && s.poller.Merging?
    ensures Step(s, Continue(Takes(s))) == Next(Merge(s).(poller := High))
    ensures (s.dw.Some? ==> s.dw.value.off <= |s.dw.value.m.data| && Fresh(s.high)) && Fits(s.high) && Fits(s.low)
    ensures
      var t := Merge(s);
      t.dw == None && t.lock == ByPoller && Fits(t.high) && t.low == s.low && t.size == Total(t.high) + Total(t.low)
  {
    MergeFlow(s);
    if s.dw.Some? { TotalCons(s.high, s.dw.value); }
  }

  lemma MergedWaiting(s: State)
    requires (s.dw.Some? ==> s.dw.value.off <= |s.dw.value.m.data| && Fresh(s.high)) && Fits(s.high) && Fits(s.low)
    requires Fits(Merge(s).high)
    ensures
      var rest := if s.dw.Some? then s.dw.value.m.data[s.dw.value.off..] else [];
      var first := if s.dw.Some? then [s.dw.value.m] else [];
      var t := Merge(s);
      Waiting(t.high) + Waiting(t.low) == rest + Waiting(s.high) + Waiting(s.low) &&
      Messages(t.high) + Messages(t.low) == first + Messages(s.high) + Messages(s.low)
  {
    var t := Merge(s);
    if s.dw.Some? {
      FirstWaiting(t.high);
      assert t.high[1..] == s.high;
      hide Waiting;
      assert Chunk(s.dw.value, Rest(s.dw.value)) == s.dw.value.m.data[s.dw.value.off..];
    } else {
      hide Waiting;
      assert [] + Waiting(s.high) == Waiting(s.high) && [] + Messages(s.high) == Messages(s.high);
    }
  }

  lemma TwoMore(s: State, r: Wrote, t: State, u: State)
    requires Step(s, Continue(r)) == Next(t) && Step(t, Continue(Again)) == Next(u)
    ensures Run(s, [Continue(r), Continue(Again)]) == Next(u)
  {
    hide Step;
    var acts := [Continue(r), Continue(Again)];
    assert acts[1..] == [Continue(Again)] && acts[1..][1..] == [];
    assert Run(t, [Continue(Again)]) == Run(u, []);
    assert Run(s, acts) == Run(t, acts[1..]);
  }

  lemma ThreeMore(s: State, r: Wrote, t: State, u: State, v: State)
    requires Step(s, Continue(r)) == Next(t) && Step(t, Continue(Again)) == Next(u)
    requires Step(u, Continue(Again)) == Next(v)
    ensures Run(s, [Continue(r), Continue(Again), Continue(Again)]) == Next(v)
  {
    hide Step;
    var acts := [Continue(r), Continue(Again), Continue(Again)];
    assert acts[1..] == [Continue(Again), Continue(Again)];
    TwoMore(t, Again, u, v);
    assert Run(s, acts) == Run(t, acts[1..]);
  }

  /** On the high list: an interrupted `write` is tried again. After one that would block, or that takes less than what is
      left of the first buffer, the rest waits in its place, the write event stays on and the lock is given back. */
  lemma HighWaits(s: State, n: nat)
    requires Inv(s) && s.poller.High? && s.high != [] && s.high[0].off + n < |s.high[0].m.data|
    ensures
      var b := s.high[0];
      Step(s, Continue(Interrupted)) == Next(s) && s.armed &&
      Run(s, [Continue(Again), Continue(Again)]) == Next(s.(lock := Free, poller := Polling)) &&
      Run(s, [Continue(Bytes(n)), Continue(Again)]) == Next(s.(
        high := [b.(off := b.off + n)] + s.high[1..], wire := s.wire + b.m.data[b.off..b.off + n], size := s.size - n,
        lock := Free, poller := Polling))
  {
    var b := s.high[0];
    var part := s.(high := [b.(off := b.off + n)] + s.high[1..], wire := s.wire + b.m.data[b.off..b.off + n],
                   size := s.size - n);
    TwoMore(s, Again, s.(poller := Releasing), s.(lock := Free, poller := Polling));
    TwoMore(s, Bytes(n), part.(poller := Releasing), part.(lock := Free, poller := Polling));
  }

  /** On the low list a message that has been started goes to the front of the high list, which is empty; one that has not
      been started stays where it is. */
  lemma LowWaits(s: State, n: nat)
    requires Inv(s) && s.poller.Low? && s.low != [] && s.low[0].off + n < |s.low[0].m.data|
    ensures
      var b := s.low[0];
      Step(s, Continue(Interrupted)) == Next(s) && s.armed && s.high == [] &&
      Run(s, [Continue(Bytes(n)), Continue(Again), Continue(Again)]) == Next(
        if b.off + n == 0 then s.(lock := Free, poller := Polling)
        else s.(high := [b.(off := b.off + n)], low := s.low[1..], wire := s.wire + b.m.data[b.off..b.off + n],
                size := s.size - n, lock := Free, poller := Polling))
  {
    var b := s.low[0];
    var part := s.(low := [b.(off := b.off + n)] + s.low[1..], wire := s.wire + b.m.data[b.off..b.off + n],
                   size := s.size - n, poller := Raising);
    var end := if b.off + n == 0 then s.(poller := Releasing)
               else part.(high := [b.(off := b.off + n)], low := s.low[1..], poller := Releasing);
    LowPartStep(s, n);
    assert part.low[1..] == s.low[1..];
    if b.off + n == 0 {
      assert part.low == s.low && part.wire == s.wire;
    }
    ThreeMore(s, Bytes(n), part, end, end.(lock := Free, poller := Polling));
  }

  lemma LowPartStep(s: State, n: nat)
    requires s.poller.Low? && s.low != [] && s.low[0].off + n < |s.low[0].m.data|
    ensures
      var b := s.low[0];
      Step(s, Continue(Bytes(n))) == Next(s.(
        low := [b.(off := b.off + n)] + s.low[1..], wire := s.wire + b.m.data[b.off..b.off + n], size := s.size - n,
        poller := Raising))
  {
  }

  // ----- a thread that asks -----

  /** `k` steps of thread `i`; a `write` among them takes `n` bytes. */
  function Gos(i: nat, n: nat, k: nat): (acts: seq<Action>)
    ensures |acts| == k
  {
    seq(k, _ => Go(i, n))
  }

  /** Thread `i` alone brings `s` to `t`. */
  ghost predicate Ends(s: State, i: nat, n: nat, t: State) { exists k: nat :: Run(s, Gos(i, n, k)) == Next(t) }

  lemma EndsHere(s: State, i: nat, n: nat)
    ensures Ends(s, i, n, s)
  {
    assert Run(s, Gos(i, n, 0)) == Next(s);
  }

  lemma EndsNext(s: State, i: nat, n: nat, t: State, u: State)
    requires Step(s, Go(i, n)) == Next(t) && Ends(t, i, n, u)
    ensures Ends(s, i, n, u)
  {
    hide Step;
    var k: nat :| Run(t, Gos(i, n, k)) == Next(u);
    assert Gos(i, n, k + 1)[0] == Go(i, n) && Gos(i, n, k + 1)[1..] == Gos(i, n, k);
    assert Run(s, Gos(i, n, k + 1)) == Next(u);
  }

  /** Thread `i` asks for `data` to be sent and then goes on alone until the state is `t`. */
  ghost predicate Sends(s: State, i: nat, low: bool, data: seq<Byte>, n: nat, t: State) {
    exists k: nat :: Run(s, [Ask(i, low, data)] + Gos(i, n, k)) == Next(t)
  }

  lemma AskThen(s: State, i: nat, low: bool, data: seq<Byte>, n: nat, t: State, u: State)
    requires Step(s, Ask(i, low, data)) == Next(t) && Ends(t, i, n, u)
    ensures Sends(s, i, low, data, n, u)
  {
    hide Step;
    var k: nat :| Run(t, Gos(i, n, k)) == Next(u);
    var all := [Ask(i, low, data)] + Gos(i, n, k);
    assert all[0] == Ask(i, low, data) && all[1..] == Gos(i, n, k);
  }

  lemma MoveTwice(s: State, i: nat, w: Writer, v: Writer)
    requires i < |s.writers|
    ensures Move(Move(s, i, w), i, v) == Move(s, i, v)
    ensures s.writers[i] == w ==> Move(s, i, w) == s
  {
  }

  lemma DoCheck(s: State, i: nat, m: Message, k: nat, locked: bool, n: nat)
    requires i < |s.writers| && k <= 3
    ensures Step(Move(s, i, Checking(m, k, locked)), Go(i, n)) == Next(Move(s, i,
      if !Permits(s, k) then if locked then Unlocking(Some(m)) else Counting(m)
      else if k < 3 then Checking(m, k + 1, locked)
      else if locked then Writing(m) else Locking(m)))
  {
    MoveTwice(s, i, Checking(m, k, locked), Unlocking(Some(m)));
    MoveTwice(s, i, Checking(m, k, locked), Counting(m));
    MoveTwice(s, i, Checking(m, k, locked), Checking(m, k + 1, locked));
    MoveTwice(s, i, Checking(m, k, locked), Writing(m));
    MoveTwice(s, i, Checking(m, k, locked), Locking(m));
  }

  /** The four reads of `can_direct_write`. */
  lemma ChecksEnd(s: State, i: nat, m: Message, k: nat, locked: bool, n: nat, u: State)
    requires i < |s.writers| && k <= 3
    requires
      var w := if forall j: nat :: k <= j <= 3 ==> Permits(s, j) then if locked then Writing(m) else Locking(m)
               else if locked then Unlocking(Some(m)) else Counting(m);
      Ends(Move(s, i, w), i, n, u)
    ensures Ends(Move(s, i, Checking(m, k, locked)), i, n, u)
    decreases 3 - k
  {
    hide Step, Ends, Move, Permits;
    DoCheck(s, i, m, k, locked, n);
    if Permits(s, k) && k < 3 {
      ChecksEnd(s, i, m, k + 1, locked, n, u);
      EndsNext(Move(s, i, Checking(m, k, locked)), i, n, Move(s, i, Checking(m, k + 1, locked)), u);
    } else if Permits(s, k) {
      EndsNext(Move(s, i, Checking(m, k, locked)), i, n, Move(s, i, if locked then Writing(m) else Locking(m)), u);
    } else {
      EndsNext(Move(s, i, Checking(m, k, locked)), i, n,
               Move(s, i, if locked then Unlocking(Some(m)) else Counting(m)), u);
    }
  }

  lemma PermitsAll(s: State)
    ensures (forall j: nat :: 0 <= j <= 3 ==> Permits(s, j)) <==>
      s.high == [] && s.low == [] && s.dw == None && s.sending == 0
  {
    assert Permits(s, 0) <==> s.high == [];
    assert Permits(s, 1) <==> s.low == [];
    assert Permits(s, 2) <==> s.dw == None;
    assert Permits(s, 3) <==> s.sending == 0;
  }

  lemma DoAsk(s: State, i: nat, low: bool, data: seq<Byte>)
    requires i < |s.writers| && s.writers[i].Ready?
    ensures
      var m := Message(i, Count(s.asked, i), low, data);
      Step(s, Ask(i, low, data)) ==
        Next(Move(s.(asked := s.asked + [m]), i, if low then Counting(m) else Checking(m, 0, false)))
  {
  }

  /** The request is counted and put into the pipe. */
  lemma CountingEnds(s: State, i: nat, m: Message, n: nat)
    requires i < |s.writers| && s.sending < 0xffff
    ensures Ends(Move(s, i, Counting(m)), i, n, Move(s.(sending := s.sending + 1, pipe := s.pipe + [m]), i, Ready))
  {
    hide Ends;
    var t := s.(sending := s.sending + 1);
    var u := Move(t.(pipe := t.pipe + [m]), i, Ready);
    MoveTwice(s, i, Counting(m), Posting(m));
    MoveTwice(t, i, Posting(m), Ready);
    assert Step(Move(s, i, Counting(m)), Go(i, n)) == Next(Move(t, i, Posting(m)));
    assert Step(Move(t, i, Posting(m)), Go(i, n)) == Next(u);
    EndsHere(u, i, n);
    EndsNext(Move(t, i, Posting(m)), i, n, u, u);
    EndsNext(Move(s, i, Counting(m)), i, n, Move(t, i, Posting(m)), u);
  }

  lemma LockingQueues(s: State, i: nat, m: Message, n: nat)
    requires i < |s.writers| && s.sending < 0xffff && !s.lock.Free?
    ensures Ends(Move(s, i, Locking(m)), i, n, Move(s.(sending := s.sending + 1, pipe := s.pipe + [m]), i, Ready))
  {
    hide Ends;
    MoveTwice(s, i, Locking(m), Counting(m));
    CountingEnds(s, i, m, n);
    assert Step(Move(s, i, Locking(m)), Go(i, n)) == Next(Move(s, i, Counting(m)));
    EndsNext(Move(s, i, Locking(m)), i, n, Move(s, i, Counting(m)),
             Move(s.(sending := s.sending + 1, pipe := s.pipe + [m]), i, Ready));
  }

  /** A request of low priority, and every request while something waits, another request is under way or the lock is
      taken, goes to the end of the pipe; nothing is written and nothing else changes. */
  lemma Queued(s: State, i: nat, low: bool, data: seq<Byte>, n: nat)
    requires i < |s.writers| && s.writers[i].Ready? && s.sending < 0xffff
    requires low || s.high != [] || s.low != [] || s.dw.Some? || s.sending != 0 || !s.lock.Free?
    ensures
      var m := Message(i, Count(s.asked, i), low, data);
      Sends(s, i, low, data, n, s.(asked := s.asked + [m], sending := s.sending + 1, pipe := s.pipe + [m]))
  {
    hide Step, Ends, Sends;
    var m := Message(i, Count(s.asked, i), low, data);
    var a := s.(asked := s.asked + [m]);
    var u := Move(a.(sending := s.sending + 1, pipe := s.pipe + [m]), i, Ready);
    MoveTwice(a.(sending := s.sending + 1, pipe := s.pipe + [m]), i, Ready, Ready);
    DoAsk(s, i, low, data);
    CountingEnds(a, i, m, n);
    if low {
      AskThen(s, i, low, data, n, Move(a, i, Counting(m)), u);
    } else {
      PermitsAll(a);
      if !a.lock.Free? { LockingQueues(a, i, m, n); }
      ChecksEnd(a, i, m, 0, false, n, u);
      AskThen(s, i, low, data, n, Move(a, i, Checking(m, 0, false)), u);
    }
  }

  lemma DoLock(s: State, i: nat, m: Message, n: nat)
    requires i < |s.writers| && s.lock.Free?
    ensures Step(Move(s, i, Locking(m)), Go(i, n)) == Next(Move(s.(lock := ByWriter(i)), i, Checking(m, 0, true)))
  {
    MoveTwice(s.(lock := ByWriter(i)), i, Locking(m), Checking(m, 0, true));
  }

  lemma UnlockEnds(s: State, i: nat, n: nat)
    requires i < |s.writers| && s.lock == ByWriter(i)
    ensures Ends(Move(s, i, Unlocking(None)), i, n, Move(s.(lock := Free), i, Ready))
  {
    hide Ends;
    var u := Move(s.(lock := Free), i, Ready);
    MoveTwice(s.(lock := Free), i, Unlocking(None), Ready);
    assert Step(Move(s, i, Unlocking(None)), Go(i, n)) == Next(u);
    EndsHere(u, i, n);
    EndsNext(Move(s, i, Unlocking(None)), i, n, u, u);
  }

  /** What a direct write of `n` bytes leaves. */
  function Written(s: State, m: Message, n: nat): State
    requires n <= |m.data|
  {
    if n == |m.data| then s.(wire := s.wire + m.data, done := s.done + [m])
    else s.(wire := s.wire + m.data[..n], dw := Some(Buffer(m, n)), armed := true)
  }

  lemma WritingEnds(s: State, i: nat, m: Message, n: nat)
    requires i < |s.writers| && s.lock == ByWriter(i) && n <= |m.data| && s.dw == None
    ensures Ends(Move(s, i, Writing(m)), i, n, Move(Written(s, m, n).(lock := Free), i, Ready))
  {
    hide Ends;
    var t := Written(s, m, n);
    var u := Move(t.(lock := Free), i, Ready);
    UnlockEnds(t, i, n);
    if n == |m.data| {
      MoveTwice(t, i, Writing(m), Unlocking(None));
      assert Step(Move(s, i, Writing(m)), Go(i, n)) == Next(Move(t, i, Unlocking(None)));
      EndsNext(Move(s, i, Writing(m)), i, n, Move(t, i, Unlocking(None)), u);
    } else {
      var s1 := Move(s.(wire := s.wire + m.data[..n]), i, Storing(m, n));
      var s2 := Move(s.(wire := s.wire + m.data[..n], dw := Some(Buffer(m, n))), i, Arming);
      MoveTwice(s.(wire := s.wire + m.data[..n]), i, Writing(m), Storing(m, n));
      MoveTwice(s.(wire := s.wire + m.data[..n], dw := Some(Buffer(m, n))), i, Storing(m, n), Arming);
      MoveTwice(t, i, Arming, Unlocking(None));
      assert Step(Move(s, i, Writing(m)), Go(i, n)) == Next(s1);
      assert Step(s1, Go(i, n)) == Next(s2);
      assert Step(s2, Go(i, n)) == Next(Move(t, i, Unlocking(None)));
      EndsNext(s2, i, n, Move(t, i, Unlocking(None)), u);
      EndsNext(s1, i, n, s2, u);
      EndsNext(Move(s, i, Writing(m)), i, n, s1, u);
    }
  }

  /** A request of high priority while nothing waits and nothing is under way is written by the thread itself. What
      `write` does not take is left for the socket thread, and the write event is switched on. */
  lemma WrittenDirectly(s: State, i: nat, data: seq<Byte>, n: nat)
    requires i < |s.writers| && s.writers[i].Ready? && n <= |data|
    requires s.high == [] && s.low == [] && s.dw == None && s.sending == 0 && s.lock.Free?
    ensures
      var m := Message(i, Count(s.asked, i), false, data);
      Sends(s, i, false, data, n,
        if n == |data| then s.(asked := s.asked + [m], wire := s.wire + data, done := s.done + [m])
        else s.(asked := s.asked + [m], wire := s.wire + data[..n], dw := Some(Buffer(m, n)), armed := true))
  {
    hide Step, Ends, Sends;
    var m := Message(i, Count(s.asked, i), false, data);
    var a := s.(asked := s.asked + [m]);
    var b := a.(lock := ByWriter(i));
    var u := Move(Written(b, m, n).(lock := Free), i, Ready);
    DoAsk(s, i, false, data);
    PermitsAll(a);
    PermitsAll(b);
    WritingEnds(b, i, m, n);
    ChecksEnd(b, i, m, 0, true, n, u);
    DoLock(a, i, m, n);
    EndsNext(Move(a, i, Locking(m)), i, n, Move(b, i, Checking(m, 0, true)), u);
    ChecksEnd(a, i, m, 0, false, n, u);
    AskThen(s, i, false, data, n, Move(a, i, Checking(m, 0, false)), u);
    MoveTwice(Written(b, m, n).(lock := Free), i, Ready, Ready);
  }

  /** The socket thread takes the first request of the pipe: while nothing waits it becomes the high list, whatever its
      priority, else the last buffer of the list of its priority. The write event is on then. */
  lemma Taken(s: State)
    requires Inv(s) && s.poller.Polling? && s.pipe != []
    ensures s.sending > 0
    ensures
      var m := s.pipe[0];
      var b := Buffer(m, 0);
      var t := s.(pipe := s.pipe[1..], sending := s.sending - 1, size := s.size + |m.data|, armed := true);
      Run(s, [Control, Continue(Again)]) == Next(
        if s.high == [] && s.low == [] then t.(high := [b])
        else if m.low then t.(low := s.low + [b])
        else t.(high := s.high + [b]))
  {
    var acts := [Control, Continue(Again)];
    var s1 := Step(s, Control).state;
    assert acts[1..] == [Continue(Again)] && acts[1..][1..] == [];
    assert Step(s, Control) == Next(s1);
    assert s.high == [] ==> s.high + [Buffer(s.pipe[0], 0)] == [Buffer(s.pipe[0], 0)];
  }
}
