/** The send path over whole runs. */
module SendSafety {
  import opened Common
  import opened SendPath
  import opened SendInvariant

  ghost predicate Good(s: State, a: Action) {
    match Step(s, a)
    case Next(s') => Inv(s')
    case Blocked => true
    case Fault => false
  }

  /** A thread moves on with what it has in hand, changing nothing but the lock and the count of requests. */
  predicate Steps(s: State, s': State, i: nat, w: Writer) {
    i < |s.writers| && s' == Move(s, i, w).(lock := s'.lock, sending := s'.sending) &&
    Hand(w) == Hand(s.writers[i]) &&
    s'.sending == s.sending - One(s.writers[i].Posting?) + One(w.Posting?) &&
    s'.lock == (if Locked(w) then ByWriter(i) else if s.lock == ByWriter(i) then Free else s.lock) &&
    (Locked(w) && !Locked(s.writers[i]) ==> s.lock.Free?) &&
    (w.Checking? ==> w.k <= 3) &&
    !s.writers[i].Storing? && !s.writers[i].Arming? && !w.Storing? && !w.Arming?
  }

  lemma StepsFlow(s: State, s': State, i: nat, w: Writer)
    requires Flow(s) && Steps(s, s', i, w) && (Locked(w) ==> HolderOk(s'))
    ensures Flow(s')
  {
  }

  lemma StepsBooks(s: State, s': State, i: nat, w: Writer)
    requires Inv(s) && Steps(s, s', i, w)
    ensures Books(s')
  {
    HandsAfter(s.writers, i, w);
    PostingsSet(s.writers, i, w);
    hide TimesIn, Times, Total, ListsOk, HolderOk, WireOk;
    forall x ensures Times(s'.asked, x) == Places(s', x) {
      assert Times(s.asked, x) == Places(s, x);
    }
  }

  lemma CheckGood(s: State, i: nat, n: nat)
    requires Inv(s) && i < |s.writers| && s.writers[i].Checking?
    ensures Good(s, Go(i, n))
  {
    hide Books, WireOk;
    var s' := Step(s, Go(i, n)).state;
    StepsFlow(s, s', i, s'.writers[i]);
    StepsBooks(s, s', i, s'.writers[i]);
  }

  lemma LockGood(s: State, i: nat, n: nat)
    requires Inv(s) && i < |s.writers|
    requires s.writers[i].Locking? || s.writers[i].Unlocking? || s.writers[i].Counting?
    ensures Good(s, Go(i, n))
  {
    hide Books, WireOk;
    if Step(s, Go(i, n)).Next? {
      var s' := Step(s, Go(i, n)).state;
      StepsFlow(s, s', i, s'.writers[i]);
      StepsBooks(s, s', i, s'.writers[i]);
    }
  }

  /** Nothing is partly written while a thread may write directly. */
  lemma NothingBegun(s: State, i: nat)
    requires Flow(s) && i < |s.writers| && s.writers[i].Writing?
    ensures Begun(s) == [] && s.wire == Flat(s.done) && s.lock == ByWriter(i)
  {
  }

  /** What is in one place more, or less. */
  lemma PlacesStay(s: State, s': State)
    requires Conserved(s)
    requires forall x :: Places(s', x) - Times(s'.asked, x) == Places(s, x) - Times(s.asked, x)
    ensures Conserved(s')
  {
    hide Places, Times;
    forall x ensures Times(s'.asked, x) == Places(s', x) {
      assert Times(s.asked, x) == Places(s, x);
    }
  }

  /** A thread whose message is written completely. */
  lemma WriteAll(s: State, i: nat, m: Message)
    requires Inv(s) && i < |s.writers| && s.writers[i] == Writing(m)
    ensures Inv(Move(s.(wire := s.wire + m.data, done := s.done + [m]), i, Unlocking(None)))
  {
    hide TimesIn, Times, Total, Flow, Hands, Postings;
    var s' := Move(s.(wire := s.wire + m.data, done := s.done + [m]), i, Unlocking(None));
    WriteAllFlow(s, i, m);
    HandsAfter(s.writers, i, Unlocking(None));
    PostingsSet(s.writers, i, Unlocking(None));
    TimesPush(s.done, m);
    PlacesStay(s, s');
  }

  lemma FreshWhileWriting(s: State, i: nat)
    requires Flow(s) && i < |s.writers| && s.writers[i].Writing?
    ensures Fresh(s.high) && Fresh(s.low) && s.dw == None && s.lock == ByWriter(i)
  {
  }

  lemma WriteAllFlow(s: State, i: nat, m: Message)
    requires Flow(s) && i < |s.writers| && s.writers[i] == Writing(m)
    ensures Flow(Move(s.(wire := s.wire + m.data, done := s.done + [m]), i, Unlocking(None)))
  {
    hide Flat, Begun, Fresh;
    NothingBegun(s, i);
    FlatPush(s.done, m);
    FreshWhileWriting(s, i);
    BegunNothing(Move(s.(wire := s.wire + m.data, done := s.done + [m]), i, Unlocking(None)));
  }

  /** A thread whose message is written in part. */
  lemma WritePart(s: State, i: nat, m: Message, n: nat)
    requires Inv(s) && i < |s.writers| && s.writers[i] == Writing(m) && n < |m.data|
    ensures Inv(Move(s.(wire := s.wire + m.data[..n]), i, Storing(m, n)))
  {
    hide TimesIn, Times, Total, Flow, Hands, Postings;
    var s' := Move(s.(wire := s.wire + m.data[..n]), i, Storing(m, n));
    WritePartFlow(s, i, m, n);
    HandsAfter(s.writers, i, Storing(m, n));
    PostingsSet(s.writers, i, Storing(m, n));
    PlacesStay(s, s');
  }

  lemma WritePartFlow(s: State, i: nat, m: Message, n: nat)
    requires Flow(s) && i < |s.writers| && s.writers[i] == Writing(m) && n < |m.data|
    ensures Flow(Move(s.(wire := s.wire + m.data[..n]), i, Storing(m, n)))
  {
    NothingBegun(s, i);
    hide Flat;
  }

  lemma WriteGood(s: State, i: nat, n: nat)
    requires Inv(s) && i < |s.writers| && s.writers[i].Writing?
    ensures Good(s, Go(i, n))
  {
    hide Inv;
    var m := s.writers[i].m;
    if n == |m.data| { WriteAll(s, i, m); } else if n < |m.data| { WritePart(s, i, m, n); }
  }

  lemma StoreGood(s: State, i: nat, n: nat)
    requires Inv(s) && i < |s.writers| && s.writers[i].Storing?
    ensures Good(s, Go(i, n))
  {
    hide TimesIn, Times, Total, Flow, Hands, Postings;
    var m, k := s.writers[i].m, s.writers[i].n;
    var s' := Move(s.(dw := Some(Buffer(m, k))), i, Arming);
    StoreFlow(s, i);
    HandsAfter(s.writers, i, Arming);
    PostingsSet(s.writers, i, Arming);
    PlacesStay(s, s');
  }

  lemma StoreFlow(s: State, i: nat)
    requires Flow(s) && i < |s.writers| && s.writers[i].Storing?
    ensures s.dw == None && s.lock == ByWriter(i)
    ensures Flow(Move(s.(dw := Some(Buffer(s.writers[i].m, s.writers[i].n))), i, Arming))
  {
  }

  lemma ArmGood(s: State, i: nat, n: nat)
    requires Inv(s) && i < |s.writers| && s.writers[i].Arming?
    ensures Good(s, Go(i, n))
  {
    hide TimesIn, Times, Total, Flow, Hands, Postings;
    var s' := Move(s.(armed := true), i, Unlocking(None));
    ArmFlow(s, i);
    HandsAfter(s.writers, i, Unlocking(None));
    PostingsSet(s.writers, i, Unlocking(None));
    PlacesStay(s, s');
  }

  lemma ArmFlow(s: State, i: nat)
    requires Flow(s) && i < |s.writers| && s.writers[i].Arming?
    ensures Flow(Move(s.(armed := true), i, Unlocking(None)))
  {
  }

  lemma PostGood(s: State, i: nat, n: nat)
    requires Inv(s) && i < |s.writers| && s.writers[i].Posting?
    ensures Good(s, Go(i, n))
  {
    hide TimesIn, Times, Total, Flow, Hands, Postings;
    var m := s.writers[i].m;
    var s' := Move(s.(pipe := s.pipe + [m]), i, Ready);
    PostFlow(s, i);
    HandsAfter(s.writers, i, Ready);
    PostingsSet(s.writers, i, Ready);
    TimesPush(s.pipe, m);
    PlacesStay(s, s');
  }

  lemma PostFlow(s: State, i: nat)
    requires Flow(s) && i < |s.writers| && s.writers[i].Posting?
    ensures Flow(Move(s.(pipe := s.pipe + [s.writers[i].m]), i, Ready))
  {
  }

  lemma AskGood(s: State, i: nat, low: bool, data: seq<Byte>)
    requires Inv(s)
    ensures Good(s, Ask(i, low, data))
  {
    if i < |s.writers| && s.writers[i].Ready? {
      var m := Message(i, Count(s.asked, i), low, data);
      AskInv(s, i, m, if low then Counting(m) else Checking(m, 0, false));
    }
  }

  lemma AskInv(s: State, i: nat, m: Message, w: Writer)
    requires Inv(s) && i < |s.writers| && s.writers[i].Ready? && (w == Counting(m) || w == Checking(m, 0, false))
    ensures Inv(Move(s.(asked := s.asked + [m]), i, w))
  {
    hide TimesIn, Times, Total, Flow, Hands, Postings;
    AskFlow(s, i, m, w);
    HandsAfter(s.writers, i, w);
    PostingsSet(s.writers, i, w);
    TimesPush(s.asked, m);
    PlacesStay(s, Move(s.(asked := s.asked + [m]), i, w));
  }

  lemma AskFlow(s: State, i: nat, m: Message, w: Writer)
    requires Flow(s) && i < |s.writers| && s.writers[i].Ready? && (w == Counting(m) || w == Checking(m, 0, false))
    ensures Flow(Move(s.(asked := s.asked + [m]), i, w))
  {
  }

  lemma FreshPush(list: seq<Buffer>, m: Message)
    ensures Fresh(list) ==> Fresh(list + [Buffer(m, 0)])
    ensures Fits(list) ==> Fits(list + [Buffer(m, 0)])
    ensures Uncomplete(list + [Buffer(m, 0)]) <==> Uncomplete(list)
  {
    var l := list + [Buffer(m, 0)];
    if list != [] { assert l[1..] == list[1..] + [Buffer(m, 0)]; }
  }

  lemma SendFlow(s: State, m: Message)
    requires Flow(s) && s.poller.Polling? && s.pipe != []
    ensures Flow(SendSocket(s, m).(pipe := s.pipe[1..], poller := Noting))
  {
    FreshPush(s.high, m);
    FreshPush(s.low, m);
    hide Fresh, Fits, Flat;
  }

  lemma ControlGood(s: State)
    requires Inv(s)
    ensures Good(s, Control)
  {
    hide TimesIn, Times, Total, Flow, Hands, Postings;
    if s.poller.Polling? && s.pipe != [] {
      var m := s.pipe[0];
      var b := Buffer(m, 0);
      var s' := SendSocket(s, m).(pipe := s.pipe[1..], poller := Noting);
      SendFlow(s, m);
      TotalPush(s.high, b);
      TotalPush(s.low, b);
      TimesInPush(s.high, b);
      TimesInPush(s.low, b);
      TimesCons(s.pipe[1..], m);
      assert s.pipe == [m] + s.pipe[1..];
      PlacesStay(s, s');
    }
  }

  lemma EventFlow(s: State)
    requires Flow(s) && s.poller.Polling? && s.lock.Free?
    ensures Flow(s.(lock := ByPoller, poller := Merging))
  {
  }

  lemma EventGood(s: State)
    requires Inv(s)
    ensures Good(s, Event)
  {
    hide TimesIn, Times, Total, Flow, Hands, Postings;
    if s.poller.Polling? && s.armed && s.lock.Free? {
      EventFlow(s);
      PlacesStay(s, s.(lock := ByPoller, poller := Merging));
    }
  }

  lemma MergeFlow(s: State)
    requires Flow(s) && s.poller.Merging?
    ensures !Uncomplete(s.low) && s.lock == ByPoller
    ensures Flow(Merge(s).(poller := High))
  {
    if s.dw.Some? { assert ([s.dw.value] + s.high)[1..] == s.high; }
  }

  lemma MergeGood(s: State, r: Wrote)
    requires Inv(s) && s.poller.Merging?
    ensures Good(s, Continue(r))
  {
    hide TimesIn, Times, Total, Flow, Hands, Postings;
    MergeFlow(s);
    if s.dw.Some? {
      TotalCons(s.high, s.dw.value);
      TimesInCons(s.high, s.dw.value);
    }
    PlacesStay(s, Merge(s).(poller := High));
  }

  /** Nothing but the first buffer of a list changes by a write that does not finish it. */
  lemma WriteFirstPart(list: seq<Buffer>, n: nat)
    requires list != [] && n < Rest(list[0])
    ensures
      var l := WriteFirst(list, n);
      l != [] && l[0] == list[0].(off := list[0].off + n) && l[1..] == list[1..] &&
      Total(l) == Total(list) - n && forall x :: TimesIn(l, x) == TimesIn(list, x)
  {
    var l := WriteFirst(list, n);
    assert Messages(l) == Messages(list);
    assert l[1..] == list[1..];
  }

  lemma WriteFirstAll(list: seq<Buffer>)
    requires list != []
    ensures
      var l := WriteFirst(list, Rest(list[0]));
      l == list[1..] && Total(l) == Total(list) - Rest(list[0]) &&
      forall x :: TimesIn(l, x) == TimesIn(list, x) - One(x == list[0].m)
  {
    assert list == [list[0]] + list[1..];
    TimesInCons(list[1..], list[0]);
  }

  lemma ChunkAll(b: Buffer)
    requires b.off <= |b.m.data|
    ensures Head(b) + Chunk(b, Rest(b)) == b.m.data
  {
  }

  lemma ChunkPart(b: Buffer, n: nat)
    requires b.off <= |b.m.data| && n <= Rest(b)
    ensures Head(b) + Chunk(b, n) == Head(b.(off := b.off + n))
  {
  }

  /** The state after a write that finishes the first buffer of the high list. */
  function HighAll(s: State): State
    requires s.high != []
  {
    s.(high := WriteFirst(s.high, Rest(s.high[0])), wire := s.wire + Chunk(s.high[0], Rest(s.high[0])),
       size := s.size - Rest(s.high[0]), done := s.done + [s.high[0].m])
  }

  lemma BegunNothing(s: State)
    requires !Holder(s).Storing? && s.dw == None && Fresh(s.high) && Fresh(s.low)
    ensures Begun(s) == []
  {
  }

  lemma HighAllFlow(s: State)
    requires Flow(s) && s.poller.High? && s.high != []
    ensures Flow(HighAll(s))
  {
    hide Flat, Chunk, WriteFirst, Begun;
    ChunkAll(s.high[0]);
    FlatPush(s.done, s.high[0].m);
    HeadBegun(s);
    WriteFirstAll(s.high);
    BegunNothing(HighAll(s));
  }

  lemma HeadBegun(s: State)
    requires Flow(s) && s.poller.High? && s.high != []
    ensures s.wire == Flat(s.done) + Head(s.high[0])
  {
    assert Uncomplete(s.high) || Head(s.high[0]) == [];
  }

  lemma HighAllGood(s: State)
    requires Inv(s) && s.poller.High? && s.high != []
    ensures Inv(HighAll(s))
  {
    hide TimesIn, Times, Total, Flow, Hands, Postings;
    HighAllFlow(s);
    WriteFirstAll(s.high);
    TimesPush(s.done, s.high[0].m);
    PlacesStay(s, HighAll(s));
  }

  /** The state after a write that does not finish it. */
  function HighPart(s: State, n: nat): State
    requires s.high != [] && n < Rest(s.high[0])
  {
    s.(high := WriteFirst(s.high, n), wire := s.wire + Chunk(s.high[0], n), size := s.size - n, poller := Releasing)
  }

  lemma BegunHigh(s: State)
    requires s.lock.ByPoller? && s.dw == None && s.high != [] && Fresh(s.low)
    ensures Begun(s) == Head(s.high[0])
  {
  }

  lemma HighPartFlow(s: State, n: nat)
    requires Flow(s) && s.poller.High? && s.high != [] && n < Rest(s.high[0])
    ensures Flow(HighPart(s, n))
  {
    hide Flat, Chunk, WriteFirst, Begun, Fresh, Head;
    HeadBegun(s);
    WriteFirstPart(s.high, n);
    ChunkPart(s.high[0], n);
    BegunHigh(HighPart(s, n));
    WireAppend(s, n);
  }

  lemma WireAppend(s: State, n: nat)
    requires s.high != [] && n < Rest(s.high[0]) && s.wire == Flat(s.done) + Head(s.high[0])
    ensures HighPart(s, n).wire == Flat(s.done) + (Head(s.high[0]) + Chunk(s.high[0], n))
  {
  }

  lemma HighPartGood(s: State, n: nat)
    requires Inv(s) && s.poller.High? && s.high != [] && n < Rest(s.high[0])
    ensures Inv(HighPart(s, n))
  {
    hide TimesIn, Times, Total, Flow, Hands, Postings;
    HighPartFlow(s, n);
    WriteFirstPart(s.high, n);
    PlacesStay(s, HighPart(s, n));
  }

  lemma HighGood(s: State, r: Wrote)
    requires Inv(s) && s.poller.High?
    ensures Good(s, Continue(r))
  {
    hide Inv, WriteFirst, Chunk;
    if s.high == [] {
      if s.low != [] {
        StartLow(s);
      } else {
        FinishGood(s);
      }
    } else {
      match r
      case Interrupted =>
      case Again => GiveUp(s);
      case Bytes(n) =>
        if n == Rest(s.high[0]) {
          HighAllGood(s);
        } else if n < Rest(s.high[0]) {
          HighPartGood(s, n);
        }
    }
  }

  lemma GiveUp(s: State)
    requires Inv(s) && (s.poller.High? || (s.poller.Raising? && !Uncomplete(s.low)))
    ensures Inv(s.(poller := Releasing))
  {
    hide TimesIn, Times, Total, Flow, Hands, Postings;
    GiveUpFlow(s);
    PlacesStay(s, s.(poller := Releasing));
  }

  lemma GiveUpFlow(s: State)
    requires Flow(s) && (s.poller.High? || (s.poller.Raising? && !Uncomplete(s.low)))
    ensures Flow(s.(poller := Releasing))
  {
  }

  lemma StartLow(s: State)
    requires Inv(s) && s.poller.High? && s.high == [] && s.low != []
    ensures Inv(s.(poller := Low))
  {
    hide TimesIn, Times, Total, Flow, Hands, Postings;
    StartLowFlow(s);
    PlacesStay(s, s.(poller := Low));
  }

  lemma StartLowFlow(s: State)
    requires Flow(s) && s.poller.High? && s.high == [] && s.low != []
    ensures Flow(s.(poller := Low))
  {
  }

  /** Step 4: both lists are empty, and the books say so. */
  lemma FinishGood(s: State)
    requires Inv(s) && (s.poller.High? || s.poller.Low?) && s.high == [] && s.low == []
    ensures Finish(s).Next? && Inv(Finish(s).state)
  {
    hide TimesIn, Times, Flow, Hands, Postings;
    FinishFlow(s);
    PlacesStay(s, s.(armed := false, poller := Releasing));
  }

  lemma FinishFlow(s: State)
    requires Flow(s) && (s.poller.High? || s.poller.Low?) && s.high == [] && s.low == []
    ensures Flow(s.(armed := false, poller := Releasing)) && s.dw == None
  {
  }

  lemma BegunLow(s: State)
    requires s.lock.ByPoller? && s.dw == None && s.high == [] && s.low != []
    ensures Begun(s) == Head(s.low[0])
  {
  }

  /** The state after a write that finishes the first buffer of the low list. */
  function LowAll(s: State): State
    requires s.low != []
  {
    s.(low := WriteFirst(s.low, Rest(s.low[0])), wire := s.wire + Chunk(s.low[0], Rest(s.low[0])),
       size := s.size - Rest(s.low[0]), done := s.done + [s.low[0].m])
  }

  lemma LowAllFlow(s: State)
    requires Flow(s) && s.poller.Low? && s.low != []
    ensures Flow(LowAll(s))
  {
    hide Flat, Chunk, WriteFirst, Begun;
    BegunLow(s);
    ChunkAll(s.low[0]);
    FlatPush(s.done, s.low[0].m);
    WriteFirstAll(s.low);
    BegunNothing(LowAll(s));
  }

  lemma LowAllGood(s: State)
    requires Inv(s) && s.poller.Low? && s.low != []
    ensures Inv(LowAll(s))
  {
    hide TimesIn, Times, Total, Flow, Hands, Postings;
    LowAllFlow(s);
    WriteFirstAll(s.low);
    TimesPush(s.done, s.low[0].m);
    PlacesStay(s, LowAll(s));
  }

  /** The state after a write that does not finish it. */
  function LowPart(s: State, n: nat): State
    requires s.low != [] && n < Rest(s.low[0])
  {
    s.(low := WriteFirst(s.low, n), wire := s.wire + Chunk(s.low[0], n), size := s.size - n, poller := Raising)
  }

  lemma LowPartFlow(s: State, n: nat)
    requires Flow(s) && s.poller.Low? && s.low != [] && n < Rest(s.low[0])
    ensures Flow(LowPart(s, n))
  {
    hide Flat, Chunk, WriteFirst, Begun, Fresh, Head;
    BegunLow(s);
    WriteFirstPart(s.low, n);
    ChunkPart(s.low[0], n);
    BegunLow(LowPart(s, n));
    LowWireAppend(s, n);
  }

  lemma LowWireAppend(s: State, n: nat)
    requires s.low != [] && n < Rest(s.low[0]) && s.wire == Flat(s.done) + Head(s.low[0])
    ensures LowPart(s, n).wire == Flat(s.done) + (Head(s.low[0]) + Chunk(s.low[0], n))
  {
  }

  lemma LowPartGood(s: State, n: nat)
    requires Inv(s) && s.poller.Low? && s.low != [] && n < Rest(s.low[0])
    ensures Inv(LowPart(s, n))
  {
    hide TimesIn, Times, Total, Flow, Hands, Postings;
    LowPartFlow(s, n);
    WriteFirstPart(s.low, n);
    PlacesStay(s, LowPart(s, n));
  }

  lemma LowAgain(s: State)
    requires Inv(s) && s.poller.Low? && s.low != []
    ensures Inv(s.(poller := Raising))
  {
    hide TimesIn, Times, Total, Flow, Hands, Postings;
    LowAgainFlow(s);
    PlacesStay(s, s.(poller := Raising));
  }

  lemma LowAgainFlow(s: State)
    requires Flow(s) && s.poller.Low? && s.low != []
    ensures Flow(s.(poller := Raising)) && s.high == []
  {
  }

  lemma LowAlone(s: State)
    requires Inv(s) && s.poller.Low?
    ensures s.high == []
  {
  }

  lemma LowGood(s: State, r: Wrote)
    requires Inv(s) && s.poller.Low?
    ensures Good(s, Continue(r))
  {
    hide Inv, WriteFirst, Chunk;
    LowAlone(s);
    if s.low == [] {
      FinishGood(s);
    } else {
      match r
      case Interrupted =>
      case Again => LowAgain(s);
      case Bytes(n) =>
        if n == Rest(s.low[0]) {
          LowAllGood(s);
        } else if n < Rest(s.low[0]) {
          LowPartGood(s, n);
        }
    }
  }

  /** Step 3: the started message goes to the front, ahead of whatever is asked for next. */
  lemma RaiseGood(s: State, r: Wrote)
    requires Inv(s) && s.poller.Raising?
    ensures Good(s, Continue(r))
  {
    if Uncomplete(s.low) {
      hide TimesIn, Times, Flow, Hands, Postings;
      RaiseFlow(s);
      assert s.low == [s.low[0]] + s.low[1..];
      TotalCons(s.low[1..], s.low[0]);
      TotalCons([], s.low[0]);
      TimesInCons(s.low[1..], s.low[0]);
      TimesInCons([], s.low[0]);
      assert [s.low[0]] + [] == [s.low[0]];
      PlacesStay(s, s.(low := s.low[1..], high := [s.low[0]], poller := Releasing));
    } else {
      GiveUp(s);
    }
  }

  lemma RaiseFlow(s: State)
    requires Flow(s) && s.poller.Raising? && Uncomplete(s.low)
    ensures Flow(s.(low := s.low[1..], high := [s.low[0]], poller := Releasing)) && s.high == []
  {
  }

  lemma NoteGood(s: State, r: Wrote)
    requires Inv(s) && (s.poller.Noting? || s.poller.Releasing?)
    ensures Good(s, Continue(r))
  {
    hide TimesIn, Times, Total, Flow, Hands, Postings;
    NoteFlow(s);
    PlacesStay(s, if s.poller.Noting? then s.(sending := s.sending - 1, poller := Polling)
                  else s.(lock := Free, poller := Polling));
  }

  lemma NoteFlow(s: State)
    requires Flow(s) && (s.poller.Noting? || s.poller.Releasing?)
    ensures s.poller.Noting? ==> Flow(s.(sending := s.sending - 1, poller := Polling))
    ensures s.poller.Releasing? ==> s.lock == ByPoller && Flow(s.(lock := Free, poller := Polling))
  {
  }

  /** No interleaving makes an assertion fail, and every step keeps the invariant. */
  lemma StepGood(s: State, a: Action)
    requires Inv(s)
    ensures Good(s, a)
  {
    hide Inv;
    match a
    case Ask(i, low, data) => AskGood(s, i, low, data);
    case Go(i, n) =>
      if i < |s.writers| {
        hide Good;
        var w := s.writers[i];
        if w.Checking? { CheckGood(s, i, n); }
        else if w.Locking? || w.Unlocking? || w.Counting? { LockGood(s, i, n); }
        else if w.Writing? { WriteGood(s, i, n); }
        else if w.Storing? { StoreGood(s, i, n); }
        else if w.Arming? { ArmGood(s, i, n); }
        else if w.Posting? { PostGood(s, i, n); }
        else { ReadyGood(s, i, n); }
      }
    case Control => ControlGood(s);
    case Event => EventGood(s);
    case Continue(r) =>
      if s.poller.Merging? { MergeGood(s, r); }
      else if s.poller.High? { HighGood(s, r); }
      else if s.poller.Low? { LowGood(s, r); }
      else if s.poller.Raising? { RaiseGood(s, r); }
      else if s.poller.Noting? || s.poller.Releasing? { NoteGood(s, r); }
  }

  lemma ReadyGood(s: State, i: nat, n: nat)
    requires i < |s.writers| && s.writers[i].Ready?
    ensures Good(s, Go(i, n))
  {
  }

  /** A run; a step that is not possible is passed over. */
  function Run(s: State, actions: seq<Action>): Outcome
    decreases |actions|
  {
    if actions == [] then Next(s)
    else
      match Step(s, actions[0])
      case Next(s') => Run(s', actions[1..])
      case Blocked => Run(s, actions[1..])
      case Fault => Fault
  }

  lemma {:induction false} RunGood(s: State, actions: seq<Action>)
    requires Inv(s)
    ensures Run(s, actions).Next? && Inv(Run(s, actions).state)
    decreases |actions|
  {
    if actions != [] {
      hide Inv, Step;
      StepGood(s, actions[0]);
      var o := Step(s, actions[0]);
      if o.Next? { RunGood(o.state, actions[1..]); } else { RunGood(s, actions[1..]); }
    }
  }

  lemma {:induction false} NoneInHand(n: nat, x: Message)
    ensures Hands(seq(n, _ => Ready), x) == 0 && Postings(seq(n, _ => Ready)) == 0
  {
    if n > 0 {
      assert seq(n, _ => Ready)[..n - 1] == seq(n - 1, _ => Ready);
      NoneInHand(n - 1, x);
    }
  }

  lemma InitInv(n: nat)
    ensures Inv(Init(n))
  {
    InitFlow(n);
    hide Flow;
    forall x ensures Times(Init(n).asked, x) == Places(Init(n), x) {
      hide Hands;
      NoneInHand(n, x);
    }
    NoneInHand(n, Message(0, 0, false, []));
    hide Hands, Postings;
  }

  lemma InitFlow(n: nat)
    ensures Flow(Init(n))
  {
  }

  /** With any number of threads and in every interleaving no assertion fails: neither that of the counter
      of requests, nor the two of the lists, nor that of step 4. */
  lemma AllRunsSafe(n: nat, actions: seq<Action>)
    ensures Run(Init(n), actions).Next? && Inv(Run(Init(n), actions).state)
  {
    InitInv(n);
    RunGood(Init(n), actions);
  }

  /** When nothing waits any more, what was written is exactly the messages asked for, each once and whole. */
  lemma AllDelivered(s: State)
    requires Inv(s) && s.high == [] && s.low == [] && s.dw == None && s.pipe == []
    requires forall i :: 0 <= i < |s.writers| ==> s.writers[i].Ready?
    ensures s.wire == Flat(s.done) && multiset(s.done) == multiset(s.asked) && s.size == 0
  {
    assert Holder(s) == Ready;
    forall x ensures multiset(s.done)[x] == multiset(s.asked)[x] {
      AllReady(s.writers, x);
      assert Times(s.asked, x) == Places(s, x);
    }
  }

  lemma {:induction false} AllReady(ws: seq<Writer>, x: Message)
    requires forall i :: 0 <= i < |ws| ==> ws[i].Ready?
    ensures Hands(ws, x) == 0
  {
    if ws != [] { AllReady(ws[..|ws| - 1], x); }
  }

  /** While something waits and no thread is about to see to it, the write event is on. */
  lemma NotForgotten(s: State)
    requires Inv(s) && (s.high != [] || s.low != [] || s.dw.Some?) && !Holder(s).Arming?
    ensures s.armed
  {
  }
}
