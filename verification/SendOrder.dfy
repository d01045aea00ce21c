/** In which order messages reach the wire. A message of a priority comes after all messages of that priority
    that were under way when it was asked for, so that each thread's messages keep their order,
    although direct writes overtake what other threads ask for meanwhile. */
module SendOrder {
  import opened Common
  import opened SendPath
  import opened SendInvariant
  import opened SendSafety

  /** The message that is written directly and not finished. */
  function Current(s: State): seq<Message> {
    if Holder(s).Storing? then [Holder(s).m] else if s.dw.Some? then [s.dw.value.m] else []
  }

  /** Everything under way, in the order in which it is to be on the wire. */
  function Line(s: State): seq<Message> {
    s.done + Current(s) + Messages(s.high) + Messages(s.low) + s.pipe
  }

  /** What a thread has asked for and not set on its way. */
  function Own(w: Writer): Option<Message> { if w.Storing? then None else Hand(w) }

  /** `x` comes before every `y`. */
  predicate Before(line: seq<Message>, x: Message, y: Message) {
    forall k :: 0 <= k < |line| && line[k] == y ==> x in line[..k]
  }

  predicate Direct(w: Writer) { w.Checking? || w.Locking? || w.Writing? || w.Storing? || w.Unlocking? }

  /** Threads have their own messages, numbered as they come; only high ones try the direct way,
      and only low ones are in the low list. */
  predicate Sorted(s: State) {
    (forall i :: 0 <= i < |s.writers| && Hand(s.writers[i]).Some? ==>
       Hand(s.writers[i]).value.sender == i && (Direct(s.writers[i]) ==> !Hand(s.writers[i]).value.low)) &&
    (forall b <- s.low :: b.m.low) &&
    (forall m <- s.asked :: m.no < Count(s.asked, m.sender)) && Distinct(s.asked)
  }

  predicate Distinct(ms: seq<Message>) { forall j, k :: 0 <= j < k < |ms| ==> ms[j] != ms[k] }

  lemma {:induction false} DistinctOnce(ms: seq<Message>, x: Message)
    requires Distinct(ms)
    ensures Times(ms, x) <= 1
  {
    if ms != [] {
      var front, last := ms[..|ms| - 1], ms[|ms| - 1];
      DistinctOnce(front, x);
      assert ms == front + [last];
      TimesPush(front, last);
      if x == last {
        assert x !in front;
      }
    }
  }

  /** How far the thread that has `y` has made sure that `x` is ahead of it. */
  predicate Stage(s: State, w: Writer, x: Message) {
    (w.Locking? || w.Writing? || (w.Checking? && w.locked) ==> x !in s.pipe) &&
    (w.Writing? || (w.Checking? && w.locked && w.k >= 1) ==> x !in Messages(s.high))
  }

  /** `x` is under way, and `y` is behind it or has not been set on its way. */
  predicate Behind(s: State, x: Message, y: Message) {
    x.low == y.low && x in s.asked && y in s.asked && y.sender < |s.writers| && x in Line(s) &&
    (forall j :: 0 <= j < |s.writers| ==> Own(s.writers[j]) != Some(x)) &&
    Before(Line(s), x, y) &&
    (Own(s.writers[y.sender]) == Some(y) ==> y !in Line(s) && Stage(s, s.writers[y.sender], x))
  }

  lemma BeforeInsert(a: seq<Message>, b: seq<Message>, z: Message, x: Message, y: Message)
    requires Before(a + b, x, y)
    requires z == y ==> x in a
    ensures Before(a + [z] + b, x, y)
  {
    var l := a + [z] + b;
    forall k | 0 <= k < |l| && l[k] == y
      ensures x in l[..k]
    {
      if k < |a| {
        assert (a + b)[k] == y && l[..k] == (a + b)[..k];
      } else if k == |a| {
        assert l[..k] == a;
      } else {
        assert (a + b)[k - 1] == y;
        assert l[..k] == a + [z] + b[..k - 1 - |a|] && (a + b)[..k - 1] == a + b[..k - 1 - |a|];
      }
    }
  }

  /** An element may move ahead, unless it is `y` and passes `x`. */
  lemma BeforeMove(a: seq<Message>, b: seq<Message>, z: Message, c: seq<Message>, x: Message, y: Message)
    requires Before(a + b + [z] + c, x, y)
    requires z == y ==> x !in b
    ensures Before(a + [z] + b + c, x, y)
  {
    var l, l' := a + b + [z] + c, a + [z] + b + c;
    forall k | 0 <= k < |l'| && l'[k] == y
      ensures x in l'[..k]
    {
      if k < |a| {
        assert l[k] == y && l[..k] == l'[..k];
      } else if k == |a| {
        assert l[|a| + |b|] == y && l[..|a| + |b|] == a + b && l'[..k] == a;
      } else if k <= |a| + |b| {
        assert l[k - 1] == y && l[..k - 1] == a + b[..k - 1 - |a|] && l'[..k] == a + [z] + b[..k - 1 - |a|];
      } else {
        var d := k - |a| - |b| - 1;
        assert l[k] == y && l[..k] == a + b + [z] + c[..d] && l'[..k] == a + [z] + b + c[..d];
      }
    }
  }

  lemma CountPush(asked: seq<Message>, m: Message)
    ensures forall i: nat :: Count(asked + [m], i) == Count(asked, i) + One(m.sender == i)
  {
    assert (asked + [m])[..|asked|] == asked;
  }

  lemma MessagesTail(list: seq<Buffer>)
    requires list != []
    ensures Messages(list) == [list[0].m] + Messages(list[1..])
  {
  }

  lemma MessagesPush(list: seq<Buffer>, b: Buffer)
    ensures Messages(list + [b]) == Messages(list) + [b.m]
  {
  }

  lemma SameLine(s: State, s': State)
    requires s'.done == s.done && s'.high == s.high && s'.low == s.low && s'.pipe == s.pipe
    requires Current(s') == Current(s)
    ensures Line(s') == Line(s)
  {
  }

  lemma QuietCurrent(s: State, i: nat, w: Writer, lock: Lock, sending: int)
    requires LockOk(s) && i < |s.writers| && !s.writers[i].Storing? && !w.Storing?
    requires lock == s.lock || (s.lock.Free? && lock == ByWriter(i)) || (s.lock == ByWriter(i) && lock.Free?)
    ensures Current(Move(s, i, w).(lock := lock, sending := sending)) == Current(s)
  {
  }

  lemma QuietLine(s: State, i: nat, n: nat)
    requires LockOk(s) && Step(s, Go(i, n)).Next? && i < |s.writers|
    requires
      var w := s.writers[i];
      w.Checking? || w.Locking? || w.Unlocking? || w.Counting?
    ensures Line(Step(s, Go(i, n)).state) == Line(s)
  {
    hide LockOk, Current, Line;
    var s' := Step(s, Go(i, n)).state;
    LockAt(s, i);
    QuietCurrent(s, i, s'.writers[i], s'.lock, s'.sending);
    SameLine(s, s');
  }

  lemma LockAt(s: State, i: nat)
    requires LockOk(s) && i < |s.writers|
    ensures Locked(s.writers[i]) <==> s.lock == ByWriter(i)
  {
  }

  lemma StoreCurrent(s: State, i: nat, n: nat)
    requires LockOk(s) && i < |s.writers| && (s.writers[i].Storing? || s.writers[i].Arming?)
    requires Step(s, Go(i, n)).Next?
    ensures Current(Step(s, Go(i, n)).state) == Current(s)
  {
    LockAt(s, i);
  }

  /** Steps of a thread that leave the line as it is. */
  lemma ThreadLine(s: State, i: nat, n: nat)
    requires LockOk(s) && Step(s, Go(i, n)).Next? && i < |s.writers|
    requires !s.writers[i].Writing? && !s.writers[i].Posting?
    ensures Line(Step(s, Go(i, n)).state) == Line(s)
  {
    var w := s.writers[i];
    if w.Storing? || w.Arming? {
      hide LockOk, Current, Line;
      StoreCurrent(s, i, n);
      SameLine(s, Step(s, Go(i, n)).state);
    } else {
      hide Step, LockOk, Line;
      QuietOrReady(s, i, n);
      QuietLine(s, i, n);
    }
  }

  lemma QuietOrReady(s: State, i: nat, n: nat)
    requires i < |s.writers| && Step(s, Go(i, n)).Next?
    ensures !s.writers[i].Ready?
  {
  }

  /** A request put on the pipe is last in the line. */
  lemma PostLine(s: State, i: nat, n: nat)
    requires LockOk(s) && i < |s.writers| && s.writers[i].Posting?
    ensures Step(s, Go(i, n)).Next? && Line(Step(s, Go(i, n)).state) == Line(s) + [s.writers[i].m]
  {
    LockAt(s, i);
    QuietCurrent(s, i, Ready, s.lock, s.sending);
    hide LockOk, Current;
    assert Move(s.(pipe := s.pipe + [s.writers[i].m]), i, Ready) ==
      Move(s, i, Ready).(pipe := s.pipe + [s.writers[i].m]);
    PipeCurrent(Move(s, i, Ready), s.pipe + [s.writers[i].m]);
  }

  lemma PipeCurrent(s: State, pipe: seq<Message>)
    ensures Current(s.(pipe := pipe)) == Current(s)
  {
  }

  /** The rest of the line behind the messages that are done. */
  function Waiting(s: State): seq<Message> { Messages(s.high) + Messages(s.low) + s.pipe }

  /** A direct write overtakes all that waits. */
  lemma WriteLine(s: State, i: nat, n: nat)
    requires Flow(s) && i < |s.writers| && s.writers[i].Writing? && Step(s, Go(i, n)).Next?
    ensures Line(s) == s.done + Waiting(s)
    ensures Line(Step(s, Go(i, n)).state) == s.done + [s.writers[i].m] + Waiting(s)
  {
    hide WireOk, ListsOk, Messages;
    LockAt(s, i);
    var m := s.writers[i].m;
    assert Holder(s) == s.writers[i] && s.dw == None;
    assert Current(s) == [];
    var s' := Step(s, Go(i, n)).state;
    if n == |m.data| {
      assert Current(s') == [] && s'.done == s.done + [m];
    } else {
      assert Current(s') == [m] && s'.done == s.done;
    }
  }

  /** `send_socket` takes the first request of the pipe past the low list at most. */
  lemma ControlLine(s: State)
    requires s.poller.Polling? && s.pipe != []
    ensures
      var m := s.pipe[0];
      var a := s.done + Current(s) + Messages(s.high);
      Line(s) == a + Messages(s.low) + [m] + s.pipe[1..] &&
      Line(Step(s, Control).state) ==
        if m.low || (s.high == [] && s.low == []) then Line(s) else a + [m] + Messages(s.low) + s.pipe[1..]
  {
    hide Current, Messages;
    var m := s.pipe[0];
    var s' := Step(s, Control).state;
    ControlCurrent(s);
    assert s.pipe == [m] + s.pipe[1..];
    MessagesPush(s.high, Buffer(m, 0));
    MessagesPush(s.low, Buffer(m, 0));
    EmptyMessages();
  }

  lemma EmptyMessages()
    ensures Messages([]) == []
  {
  }

  lemma ControlCurrent(s: State)
    requires s.poller.Polling? && s.pipe != []
    ensures Current(Step(s, Control).state) == Current(s)
  {
  }

  /** What the socket thread writes or moves keeps its place. */
  lemma PollerLine(s: State, r: Wrote)
    requires Flow(s) && Step(s, Continue(r)).Next?
    ensures Line(Step(s, Continue(r)).state) == Line(s)
  {
    if s.poller.Merging? { MergeLine(s, r); }
    else if s.poller.High? { HighLine(s, r); }
    else if s.poller.Low? { LowLine(s, r); }
    else if s.poller.Raising? { RaiseLine(s, r); }
    else { NoteLine(s, r); }
  }

  lemma MergeLine(s: State, r: Wrote)
    requires Flow(s) && s.poller.Merging? && Step(s, Continue(r)).Next?
    ensures Line(Step(s, Continue(r)).state) == Line(s)
  {
    hide Messages, ListsOk, HolderOk, WireOk;
    assert s.lock.ByPoller?;
    hide LockOk;
    if s.dw.Some? {
      MessagesTail([s.dw.value] + s.high);
      assert ([s.dw.value] + s.high)[1..] == s.high;
      MergedLine(s.done, s.dw.value.m, Messages(s.high), Messages(s.low), s.pipe);
    }
  }

  lemma MergedLine(d: seq<Message>, m: Message, h: seq<Message>, l: seq<Message>, p: seq<Message>)
    ensures d + [m] + h + l + p == d + [] + ([m] + h) + l + p
  {
  }

  /** With the lock with the socket thread and no direct write left over, the line is the lists. */
  lemma ListLine(s: State)
    requires s.lock.ByPoller? && s.dw == None
    ensures Line(s) == s.done + Waiting(s)
  {
  }

  lemma Regroup(d: seq<Message>, m: Message, h: seq<Message>, l: seq<Message>, p: seq<Message>)
    ensures d + [m] + (h + l + p) == d + ([m] + h + l + p)
  {
  }

  lemma HighLine(s: State, r: Wrote)
    requires Flow(s) && s.poller.High? && Step(s, Continue(r)).Next?
    ensures Line(Step(s, Continue(r)).state) == Line(s)
  {
    hide WireOk, Fresh, Messages, Line;
    var s' := Step(s, Continue(r)).state;
    ListLine(s);
    ListLine(s');
    if s.high != [] && r.Bytes? {
      WrittenLine(s.high, r.n);
      Regroup(s.done, s.high[0].m, Messages(s'.high), Messages(s.low), s.pipe);
    }
  }

  lemma WrittenLine(list: seq<Buffer>, n: nat)
    requires list != [] && n <= Rest(list[0])
    ensures n < Rest(list[0]) ==> Messages(WriteFirst(list, n)) == Messages(list)
    ensures n == Rest(list[0]) ==> [list[0].m] + Messages(WriteFirst(list, n)) == Messages(list)
  {
  }

  lemma LowLine(s: State, r: Wrote)
    requires Flow(s) && s.poller.Low? && Step(s, Continue(r)).Next?
    ensures Line(Step(s, Continue(r)).state) == Line(s)
  {
    hide WireOk, Fresh, Messages, Line;
    var s' := Step(s, Continue(r)).state;
    ListLine(s);
    ListLine(s');
    EmptyMessages();
    if s.low != [] && r.Bytes? {
      WrittenLine(s.low, r.n);
      if r.n == Rest(s.low[0]) {
        assert s'.done + Waiting(s') == s.done + Waiting(s);
      }
    }
  }

  lemma RaiseLine(s: State, r: Wrote)
    requires Flow(s) && s.poller.Raising? && Step(s, Continue(r)).Next?
    ensures Line(Step(s, Continue(r)).state) == Line(s)
  {
    hide WireOk, Fresh, Messages, Line;
    var s' := Step(s, Continue(r)).state;
    ListLine(s);
    ListLine(s');
    EmptyMessages();
    if s.low != [] {
      MessagesTail(s.low);
      MessagesTail([s.low[0]]);
      assert [s.low[0]][1..] == [];
    }
  }

  lemma NoteLine(s: State, r: Wrote)
    requires Flow(s) && (s.poller.Noting? || s.poller.Releasing? || s.poller.Polling?) && Step(s, Continue(r)).Next?
    ensures Line(Step(s, Continue(r)).state) == Line(s)
  {
    hide WireOk, Fresh, Messages;
  }

  lemma EventLine(s: State)
    requires LockOk(s) && Step(s, Event).Next?
    ensures Line(Step(s, Event).state) == Line(s)
  {
    hide Messages;
  }

  lemma AskLine(s: State, i: nat, low: bool, data: seq<Byte>)
    requires LockOk(s) && Step(s, Ask(i, low, data)).Next?
    ensures Line(Step(s, Ask(i, low, data)).state) == Line(s)
  {
    LockAt(s, i);
    hide Messages;
  }

  /** Which messages threads have, and what the numbers say, after a step. */
  lemma SortedStays(s: State, a: Action)
    requires Inv(s) && Sorted(s) && Step(s, a).Next?
    ensures Sorted(Step(s, a).state)
  {
    hide Inv, Messages;
    match a
    case Ask(i, low, data) => SortedAsk(s, i, low, data);
    case Go(i, n) => SortedThread(s, i, n);
    case Control => SortedControl(s);
    case Event =>
    case Continue(r) => SortedPoller(s, r);
  }

  lemma SortedAsk(s: State, i: nat, low: bool, data: seq<Byte>)
    requires Sorted(s) && Step(s, Ask(i, low, data)).Next?
    ensures Sorted(Step(s, Ask(i, low, data)).state)
  {
    hide Count;
    var m := Message(i, Count(s.asked, i), low, data);
    CountPush(s.asked, m);
    assert m !in s.asked;
  }

  lemma SortedThread(s: State, i: nat, n: nat)
    requires Sorted(s) && Step(s, Go(i, n)).Next?
    ensures Sorted(Step(s, Go(i, n)).state)
  {
    hide Step;
    ThreadShape(s, i, n);
  }

  lemma ThreadShape(s: State, i: nat, n: nat)
    requires Step(s, Go(i, n)).Next?
    ensures
      var s' := Step(s, Go(i, n)).state;
      i < |s.writers| == |s'.writers| && s'.asked == s.asked && s'.low == s.low && s'.high == s.high &&
      s'.writers == s.writers[i := s'.writers[i]] &&
      (Hand(s'.writers[i]) == Hand(s.writers[i]) || Hand(s'.writers[i]) == None) &&
      (Direct(s'.writers[i]) && Hand(s'.writers[i]).Some? ==> Direct(s.writers[i]))
  {
  }

  lemma PollerShape(s: State, r: Wrote)
    requires Step(s, Continue(r)).Next?
    ensures
      var s' := Step(s, Continue(r)).state;
      s'.writers == s.writers && s'.asked == s.asked && s'.pipe == s.pipe &&
      (forall b <- s'.low :: exists c <- s.low :: b.m == c.m)
  {
    if s.poller.Low? && s.low != [] {
      var s' := Step(s, Continue(r)).state;
      forall b | b in s'.low
        ensures exists c <- s.low :: b.m == c.m
      {
        if b in s.low { } else { assert s.low[0] in s.low && b.m == s.low[0].m; }
      }
    }
  }

  lemma SortedControl(s: State)
    requires Sorted(s) && Step(s, Control).Next?
    ensures Sorted(Step(s, Control).state)
  {
  }

  lemma SortedPoller(s: State, r: Wrote)
    requires Sorted(s) && Step(s, Continue(r)).Next?
    ensures Sorted(Step(s, Continue(r)).state)
  {
    hide Step;
    PollerShape(s, r);
  }

  /** A message asked for now is new. */
  lemma AskedNew(s: State, i: nat, low: bool, data: seq<Byte>)
    requires Inv(s) && Sorted(s)
    ensures
      var m := Message(i, Count(s.asked, i), low, data);
      m !in s.asked && m !in Line(s) && forall j :: 0 <= j < |s.writers| ==> Own(s.writers[j]) != Some(m)
  {
    var m := Message(i, Count(s.asked, i), low, data);
    assert m !in s.asked;
    LineAsked(s, m);
  }

  lemma {:induction false} HandsLower(ws: seq<Writer>, i: nat, x: Message)
    requires i < |ws| && Hand(ws[i]) == Some(x)
    ensures Hands(ws, x) >= 1
  {
    if i < |ws| - 1 { HandsLower(ws[..|ws| - 1], i, x); }
  }

  /** Only what was asked for is under way or in hand. */
  lemma LineAsked(s: State, x: Message)
    requires Inv(s)
    ensures x in Line(s) ==> x in s.asked
    ensures forall j :: 0 <= j < |s.writers| && Hand(s.writers[j]) == Some(x) ==> x in s.asked
  {
    assert Times(s.asked, x) == Places(s, x);
    forall j | 0 <= j < |s.writers| && Hand(s.writers[j]) == Some(x)
      ensures x in s.asked
    {
      HandsLower(s.writers, j, x);
    }
    if x in Current(s) && Holder(s).Storing? { HandsLower(s.writers, s.lock.i, x); }
  }

  lemma SendingZero(s: State)
    requires SendingOk(s) && s.sending == 0
    ensures s.pipe == []
  {
  }

  /** What a thread finds out, read by read, about what is ahead of its message. */
  lemma StageGrows(s: State, i: nat, n: nat, x: Message)
    requires SendingOk(s) && Step(s, Go(i, n)).Next? && i < |s.writers| && Stage(s, s.writers[i], x)
    requires !s.writers[i].Posting?
    ensures Stage(Step(s, Go(i, n)).state, Step(s, Go(i, n)).state.writers[i], x)
  {
    if s.sending == 0 { SendingZero(s); }
    hide SendingOk;
    EmptyMessages();
    hide Messages;
  }

  lemma QuietBehind(s: State, i: nat, n: nat, x: Message, y: Message)
    requires Inv(s) && Sorted(s) && Behind(s, x, y) && Step(s, Go(i, n)).Next? && i < |s.writers|
    requires !s.writers[i].Writing? && !s.writers[i].Posting?
    ensures Behind(Step(s, Go(i, n)).state, x, y)
  {
    hide Step, Line, Before, Messages, ListsOk, HolderOk, WireOk, SizeOk, ArmedOk, Conserved;
    ThreadLine(s, i, n);
    ThreadShape(s, i, n);
    QuietPipe(s, i, n);
    if i == y.sender && Own(s.writers[i]) == Some(y) { StageGrows(s, i, n, x); }
    hide LockOk, SendingOk, Sorted;
  }

  lemma QuietPipe(s: State, i: nat, n: nat)
    requires Step(s, Go(i, n)).Next? && i < |s.writers| && !s.writers[i].Posting? && !s.writers[i].Writing?
    ensures
      var s' := Step(s, Go(i, n)).state;
      s'.pipe == s.pipe && (Own(s'.writers[i]) == Own(s.writers[i]) || Own(s'.writers[i]) == None)
  {
  }

  /** Everything ahead of a direct write is done. */
  lemma AheadDone(s: State, i: nat, x: Message)
    requires Sorted(s) && Line(s) == s.done + Waiting(s) && x in Line(s) && !x.low
    requires i < |s.writers| && s.writers[i].Writing? && Stage(s, s.writers[i], x)
    ensures x in s.done
  {
    NotLow(s, x);
  }

  lemma WriteBehind(s: State, i: nat, n: nat, x: Message, y: Message)
    requires Inv(s) && Sorted(s) && Behind(s, x, y) && Step(s, Go(i, n)).Next? && i < |s.writers|
    requires s.writers[i].Writing?
    ensures Behind(Step(s, Go(i, n)).state, x, y)
  {
    hide Step, Line, Before, Messages, Flow, Books;
    var m := s.writers[i].m;
    OwnWriting(s, i);
    WriteLine(s, i, n);
    ThreadShape(s, i, n);
    WritePipe(s, i, n);
    if m == y { AheadDone(s, i, x); }
    hide Sorted, Waiting;
    BeforeInsert(s.done, Waiting(s), m, x, y);
  }

  lemma OwnWriting(s: State, i: nat)
    requires Sorted(s) && i < |s.writers| && (s.writers[i].Writing? || s.writers[i].Posting?)
    ensures
      var m := s.writers[i].m;
      Own(s.writers[i]) == Some(m) && m.sender == i && (s.writers[i].Writing? ==> !m.low)
  {
  }

  lemma WritePipe(s: State, i: nat, n: nat)
    requires Step(s, Go(i, n)).Next? && i < |s.writers| && s.writers[i].Writing?
    ensures
      var s' := Step(s, Go(i, n)).state;
      s'.pipe == s.pipe && Own(s'.writers[i]) == None
  {
  }

  lemma PostShape(s: State, i: nat, n: nat)
    requires i < |s.writers| && s.writers[i].Posting?
    ensures
      var s' := Step(s, Go(i, n)).state;
      s'.pipe == s.pipe + [s.writers[i].m] && s'.writers[i] == Ready
  {
  }

  lemma PostBehind(s: State, i: nat, n: nat, x: Message, y: Message)
    requires Inv(s) && Sorted(s) && Behind(s, x, y) && Step(s, Go(i, n)).Next? && i < |s.writers|
    requires s.writers[i].Posting?
    ensures Behind(Step(s, Go(i, n)).state, x, y)
  {
    hide Step, Line, Before, Messages, Flow, Books;
    var m := s.writers[i].m;
    OwnWriting(s, i);
    InvLock(s);
    PostLine(s, i, n);
    ThreadShape(s, i, n);
    PostShape(s, i, n);
    hide Sorted;
    assert Line(s) + [] == Line(s) && Line(s) + [m] + [] == Line(s) + [m];
    BeforeInsert(Line(s), [], m, x, y);
  }

  lemma AskBehind(s: State, i: nat, low: bool, data: seq<Byte>, x: Message, y: Message)
    requires Inv(s) && Sorted(s) && Behind(s, x, y) && Step(s, Ask(i, low, data)).Next?
    ensures Behind(Step(s, Ask(i, low, data)).state, x, y)
  {
    hide Inv, Line, Before, Messages, Sorted;
    InvLock(s);
    AskLine(s, i, low, data);
    AskedNew(s, i, low, data);
  }

  lemma ControlBehind(s: State, x: Message, y: Message)
    requires Inv(s) && Sorted(s) && Behind(s, x, y) && Step(s, Control).Next?
    ensures Behind(Step(s, Control).state, x, y)
  {
    var m := s.pipe[0];
    var s' := Step(s, Control).state;
    ControlLine(s);
    if m == y && !m.low { NotLow(s, x); }
    ControlShape(s);
    hide Inv, Step, Line, Before, Messages, Sorted;
    if Line(s') != Line(s) {
      BeforeMove(s.done + Current(s) + Messages(s.high), Messages(s.low), m, s.pipe[1..], x, y);
    }
  }

  lemma ControlShape(s: State)
    requires s.poller.Polling? && s.pipe != []
    ensures
      var s' := Step(s, Control).state;
      s'.writers == s.writers && s'.asked == s.asked && s'.pipe == s.pipe[1..] &&
      forall z :: z in Messages(s'.high) ==> z in Messages(s.high) || z in s.pipe
  {
    MessagesPush(s.high, Buffer(s.pipe[0], 0));
  }

  lemma NotLow(s: State, x: Message)
    requires Sorted(s) && !x.low
    ensures x !in Messages(s.low)
  {
    forall z | z in Messages(s.low)
      ensures z.low
    {
      var k :| 0 <= k < |s.low| && Messages(s.low)[k] == z;
      assert s.low[k].m.low;
    }
  }

  lemma PollerBehind(s: State, r: Wrote, x: Message, y: Message)
    requires Inv(s) && Behind(s, x, y) && Step(s, Continue(r)).Next?
    ensures Behind(Step(s, Continue(r)).state, x, y)
  {
    PollerLine(s, r);
    PollerShape(s, r);
    PollerHigh(s, r, y.sender);
    hide Inv, Step, Line, Before, Messages;
  }

  lemma PollerHigh(s: State, r: Wrote, i: nat)
    requires LockOk(s) && Step(s, Continue(r)).Next? && i < |s.writers|
    ensures Locked(s.writers[i]) ==> Step(s, Continue(r)).state.high == s.high
  {
    LockAt(s, i);
  }

  lemma EventBehind(s: State, x: Message, y: Message)
    requires Inv(s) && Behind(s, x, y) && Step(s, Event).Next?
    ensures Behind(Step(s, Event).state, x, y)
  {
    EventLine(s);
    hide Inv, Line, Before, Messages;
  }

  lemma BehindStays(s: State, a: Action, x: Message, y: Message)
    requires Inv(s) && Sorted(s) && Behind(s, x, y) && Step(s, a).Next?
    ensures Behind(Step(s, a).state, x, y)
  {
    hide Inv, Behind, Sorted;
    match a
    case Ask(i, low, data) => AskBehind(s, i, low, data, x, y);
    case Go(i, n) =>
      if s.writers[i].Writing? { WriteBehind(s, i, n, x, y); }
      else if s.writers[i].Posting? { PostBehind(s, i, n, x, y); }
      else { QuietBehind(s, i, n, x, y); }
    case Control => ControlBehind(s, x, y);
    case Event => EventBehind(s, x, y);
    case Continue(r) => PollerBehind(s, r, x, y);
  }

  lemma {:induction false} RunBehind(s: State, actions: seq<Action>, x: Message, y: Message)
    requires Inv(s) && Sorted(s) && Behind(s, x, y)
    ensures Run(s, actions).Next? && Behind(Run(s, actions).state, x, y)
    decreases |actions|
  {
    if actions != [] {
      hide Inv, Step, Behind, Sorted;
      StepGood(s, actions[0]);
      var o := Step(s, actions[0]);
      if o.Next? {
        BehindStays(s, actions[0], x, y);
        SortedStays(s, actions[0]);
        RunBehind(o.state, actions[1..], x, y);
      } else {
        RunBehind(s, actions[1..], x, y);
      }
    }
  }

  lemma {:induction false} RunSorted(s: State, actions: seq<Action>)
    requires Inv(s) && Sorted(s)
    ensures Run(s, actions).Next? && Sorted(Run(s, actions).state)
    decreases |actions|
  {
    if actions != [] {
      hide Inv, Step, Sorted;
      StepGood(s, actions[0]);
      var o := Step(s, actions[0]);
      if o.Next? {
        SortedStays(s, actions[0]);
        RunSorted(o.state, actions[1..]);
      } else {
        RunSorted(s, actions[1..]);
      }
    }
  }

  /** Take any run, at the end of which some thread asks for `y` while `x` of the same priority is under way,
      and then any further run: if `y` has been written completely, `x` has been before it. */
  lemma OrderKept(n: nat, first: seq<Action>, i: nat, low: bool, data: seq<Byte>, x: Message, rest: seq<Action>)
    requires
      var s := Run(Init(n), first);
      s.Next? && Step(s.state, Ask(i, low, data)).Next? && x in Line(s.state) && x.low == low
    ensures
      var s := Run(Init(n), first).state;
      var y := Message(i, Count(s.asked, i), low, data);
      var s2 := Run(Step(s, Ask(i, low, data)).state, rest);
      s2.Next? && forall k :: 0 <= k < |s2.state.done| && s2.state.done[k] == y ==> x in s2.state.done[..k]
  {
    hide Inv, Step, Sorted, Behind, Run, Line, Own, Before;
    InitInv(n);
    InitSorted(n);
    RunGood(Init(n), first);
    RunSorted(Init(n), first);
    var s := Run(Init(n), first).state;
    var y := Message(i, Count(s.asked, i), low, data);
    var s1 := Step(s, Ask(i, low, data)).state;
    StepGood(s, Ask(i, low, data));
    SortedStays(s, Ask(i, low, data));
    AskStarts(s, i, low, data, x);
    RunBehind(s1, rest, x, y);
    BehindBefore(Run(s1, rest).state, x, y);
    DoneFirst(Run(s1, rest).state, x, y);
  }

  /** What is under way is not in hand. */
  lemma OnePlace(s: State, x: Message)
    requires Inv(s) && Sorted(s) && x in Line(s)
    ensures forall j :: 0 <= j < |s.writers| ==> Own(s.writers[j]) != Some(x)
  {
    DistinctOnce(s.asked, x);
    assert Times(s.asked, x) == Places(s, x);
    forall j | 0 <= j < |s.writers|
      ensures Own(s.writers[j]) != Some(x)
    {
      if Hand(s.writers[j]) == Some(x) { HandsLower(s.writers, j, x); }
    }
  }

  lemma InitSorted(n: nat)
    ensures Sorted(Init(n))
  {
  }

  lemma InvLock(s: State)
    requires Inv(s)
    ensures LockOk(s)
  {
  }

  lemma BehindBefore(s: State, x: Message, y: Message)
    requires Behind(s, x, y)
    ensures Before(Line(s), x, y)
  {
  }

  lemma AskStarts(s: State, i: nat, low: bool, data: seq<Byte>, x: Message)
    requires Inv(s) && Sorted(s) && Step(s, Ask(i, low, data)).Next? && x in Line(s) && x.low == low
    ensures Behind(Step(s, Ask(i, low, data)).state, x, Message(i, Count(s.asked, i), low, data))
  {
    hide Inv, Line, Messages, Sorted, Flow, Books;
    AskedNew(s, i, low, data);
    InvLock(s);
    AskLine(s, i, low, data);
    LineAsked(s, x);
    OnePlace(s, x);
  }

  lemma DoneFirst(s: State, x: Message, y: Message)
    requires Before(Line(s), x, y)
    ensures forall k :: 0 <= k < |s.done| && s.done[k] == y ==> x in s.done[..k]
  {
    forall k | 0 <= k < |s.done| && s.done[k] == y
      ensures x in s.done[..k]
    {
      assert Line(s)[k] == y && Line(s)[..k] == s.done[..k];
    }
  }
}
