/** No state of the send path is stuck: whatever has happened, all that has been asked for can still be written. */
module SendEnding {
  import opened Common
  import opened SendPath
  import opened SendInvariant
  import opened SendSafety
  import opened SendProgress

  /** How many steps a thread is away from having handed over what it has in hand, at most. */
  function Work(w: Writer): nat {
    match w
    case Ready => 0
    case Checking(_, k, locked) => (if locked then 7 else 12) + if k < 3 then 3 - k else 0
    case Locking(_) => 11
    case Writing(_) => 6
    case Storing(_, _) => 3
    case Arming => 2
    case Unlocking(back) => if back.Some? then 5 else 1
    case Counting(_) => 4
    case Posting(_) => 3
  }

  function AllWork(ws: seq<Writer>): nat {
    if ws == [] then 0 else AllWork(ws[..|ws| - 1]) + Work(ws[|ws| - 1])
  }

  lemma {:induction false} AllWorkSet(ws: seq<Writer>, i: nat, w: Writer)
    requires i < |ws|
    ensures AllWork(ws[i := w]) == AllWork(ws) - Work(ws[i]) + Work(w)
  {
    var k := |ws| - 1;
    if i < k {
      assert ws[i := w][..k] == ws[..k][i := w];
      AllWorkSet(ws[..k], i, w);
    } else {
      assert ws[i := w][..k] == ws[..k];
    }
  }

  /** A thread that is not done, one that is about to put a request into the pipe if there is such a one. */
  lemma {:induction false} SomeWork(ws: seq<Writer>) returns (i: nat)
    requires AllWork(ws) > 0
    ensures i < |ws| && Work(ws[i]) > 0 && (Postings(ws) > 0 ==> ws[i].Posting?)
  {
    var k := |ws| - 1;
    if ws[k].Posting? || (Work(ws[k]) > 0 && Postings(ws) == 0) {
      i := k;
    } else {
      if Postings(ws) > 0 { PostingIsWork(ws[..k]); }
      i := SomeWork(ws[..k]);
    }
  }

  lemma {:induction false} PostingIsWork(ws: seq<Writer>)
    ensures AllWork(ws) >= Postings(ws)
  {
    if ws != [] { PostingIsWork(ws[..|ws| - 1]); }
  }

  function PollerWork(p: Poller): nat {
    match p
    case Polling => 0
    case Noting => 1
    case Merging => 5
    case High => 4
    case Low => 3
    case Raising => 2
    case Releasing => 1
  }

  function ToDo(s: State): nat { AllWork(s.writers) + 2 * |s.pipe| + PollerWork(s.poller) }

  /** A step of a thread lowers its own work, and adds to the pipe at most what it has finished. */
  lemma GoLess(s: State, i: nat)
    requires i < |s.writers| && Work(s.writers[i]) > 0 && (s.writers[i].Checking? ==> s.writers[i].k <= 3)
    requires Step(s, Go(i, 0)).Next?
    ensures
      var s' := Step(s, Go(i, 0)).state;
      |s'.writers| == |s.writers| && s'.writers == s.writers[i := s'.writers[i]] && s'.poller == s.poller &&
      Work(s'.writers[i]) + 2 * |s'.pipe| < Work(s.writers[i]) + 2 * |s.pipe|
  {
  }

  lemma GoNext(s: State, i: nat)
    requires Inv(s) && i < |s.writers| && Work(s.writers[i]) > 0
    requires s.writers[i].Posting? || s.sending == 0
    ensures Step(s, Go(i, 0)).Next?
  {
    hide Inv;
    StepGood(s, Go(i, 0));
  }

  lemma WriterWorks(s: State, i: nat)
    requires Inv(s) && i < |s.writers| && Work(s.writers[i]) > 0
    requires s.writers[i].Posting? || s.sending == 0
    ensures Step(s, Go(i, 0)).Next? && ToDo(Step(s, Go(i, 0)).state) < ToDo(s)
  {
    CheckCount(s, i);
    hide Inv, Step, AllWork, Work;
    GoNext(s, i);
    GoLess(s, i);
    AllWorkSet(s.writers, i, Step(s, Go(i, 0)).state.writers[i]);
  }

  lemma CheckCount(s: State, i: nat)
    requires Inv(s) && i < |s.writers|
    ensures s.writers[i].Checking? ==> s.writers[i].k <= 3
  {
  }

  lemma PollerWorks(s: State)
    requires Inv(s) && !s.poller.Polling?
    ensures Step(s, Continue(Again)).Next? && ToDo(Step(s, Continue(Again)).state) < ToDo(s)
  {
    hide Inv;
    StepGood(s, Continue(Again));
    hide AllWork;
  }

  lemma ControlWorks(s: State)
    requires s.poller.Polling? && s.pipe != []
    ensures Step(s, Control).Next? && ToDo(Step(s, Control).state) < ToDo(s)
  {
    hide AllWork;
  }

  lemma CountOfPipe(s: State)
    requires Inv(s) && s.poller.Polling?
    ensures s.sending == |s.pipe| + Postings(s.writers)
  {
  }

  /** While something is to be done there is a step that does it. */
  lemma Unstuck(s: State) returns (a: Action)
    requires Inv(s) && ToDo(s) > 0
    ensures Step(s, a).Next? && ToDo(Step(s, a).state) < ToDo(s) && !a.Ask?
  {
    hide Inv, Step;
    if !s.poller.Polling? {
      PollerWorks(s);
      a := Continue(Again);
    } else if s.pipe != [] {
      ControlWorks(s);
      a := Control;
    } else {
      CountOfPipe(s);
      var i := SomeWork(s.writers);
      WriterWorks(s, i);
      a := Go(i, 0);
    }
  }

  lemma NoWork(s: State)
    requires Inv(s) && ToDo(s) == 0
    ensures s.poller.Polling? && s.pipe == [] && s.lock.Free?
    ensures forall i :: 0 <= i < |s.writers| ==> s.writers[i].Ready?
  {
    assert s.poller.Polling?;
    AllIdle(s.writers);
    assert forall i :: 0 <= i < |s.writers| ==> !Locked(s.writers[i]);
  }

  lemma {:induction false} AllIdle(ws: seq<Writer>)
    requires AllWork(ws) == 0
    ensures forall i :: 0 <= i < |ws| ==> ws[i].Ready?
  {
    if ws != [] { AllIdle(ws[..|ws| - 1]); }
  }

  lemma RunPlus(s: State, a: seq<Action>, b: seq<Action>)
    requires Run(s, a).Next?
    ensures Run(s, a + b) == Run(Run(s, a).state, b)
    decreases |a|
  {
    hide Step;
    if a == [] {
      assert a + b == b;
    } else {
      assert (a + b)[0] == a[0] && (a + b)[1..] == a[1..] + b;
      var o := Step(s, a[0]);
      if o.Next? { RunPlus(o.state, a[1..], b); } else { RunPlus(s, a[1..], b); }
    }
  }

  lemma AskedStays(s: State, a: Action)
    requires !a.Ask? && Step(s, a).Next?
    ensures Step(s, a).state.asked == s.asked
  {
  }

  /** Everybody finishes what is under way. */
  lemma {:induction false} Settles(s: State) returns (acts: seq<Action>)
    requires Inv(s)
    ensures Run(s, acts).Next? && Inv(Run(s, acts).state) && ToDo(Run(s, acts).state) == 0
    ensures Run(s, acts).state.asked == s.asked
    decreases ToDo(s)
  {
    hide Inv, Step, ToDo;
    if ToDo(s) == 0 {
      acts := [];
    } else {
      var a := Unstuck(s);
      StepGood(s, a);
      AskedStays(s, a);
      var t := Step(s, a).state;
      var rest := Settles(t);
      acts := [a] + rest;
      assert acts[0] == a && acts[1..] == rest;
    }
  }

  lemma FullRun(s: State, acts: seq<Action>)
    requires Inv(s) && Full(s, acts)
    ensures Run(s, acts).Next? && Inv(Run(s, acts).state)
  {
    RunGood(s, acts);
  }

  /** From every state that can be reached, with requests under way at any point, there is a way on after which every
      message asked for has been written, each once and whole. */
  lemma NeverStuck(s: State)
    requires Inv(s)
    ensures exists acts ::
      Run(s, acts).Next? &&
      var t := Run(s, acts).state;
      t.asked == s.asked && t.wire == Flat(t.done) && multiset(t.done) == multiset(s.asked) && t.size == 0
  {
    var acts := Settles(s);
    var t := Run(s, acts).state;
    NoWork(t);
    hide Inv, Step, Flat, Run;
    var more, end := Delivers(t);
    RunPlus(s, acts, more);
    assert Run(s, acts + more) == Next(end);
  }

  /** The last turn of the socket thread. */
  lemma Delivers(s: State) returns (acts: seq<Action>, t: State)
    requires Inv(s) && s.poller.Polling? && s.pipe == [] && s.lock.Free?
    requires forall i :: 0 <= i < |s.writers| ==> s.writers[i].Ready?
    ensures Run(s, acts) == Next(t) && t.asked == s.asked
    ensures t.wire == Flat(t.done) && multiset(t.done) == multiset(t.asked) && t.size == 0
  {
    hide Inv, Step, Flat;
    if s.armed {
      var u := s.(lock := ByPoller, poller := Merging);
      EventStep(s);
      StepGood(s, Event);
      var more: seq<Action>;
      more, t := Drained(u);
      FullRun(u, more);
      AllDelivered(t);
      OneEvent(s);
      hide Run;
      RunPlus(s, [Event], more);
      acts := [Event] + more;
    } else {
      NothingWaits(s);
      AllDelivered(s);
      acts, t := [], s;
    }
  }

  lemma EventStep(s: State)
    requires s.poller.Polling? && s.armed && s.lock.Free?
    ensures Step(s, Event) == Next(s.(lock := ByPoller, poller := Merging))
  {
  }

  lemma OneEvent(s: State)
    requires s.poller.Polling? && s.armed && s.lock.Free?
    ensures Run(s, [Event]) == Next(s.(lock := ByPoller, poller := Merging))
  {
    assert [Event][1..] == [];
  }

  lemma NothingWaits(s: State)
    requires Inv(s) && !s.armed && forall i :: 0 <= i < |s.writers| ==> s.writers[i].Ready?
    ensures s.high == [] && s.low == [] && s.dw == None
  {
    NotForgottenYet(s);
  }

  lemma NotForgottenYet(s: State)
    requires Inv(s) && !s.armed && !Holder(s).Arming?
    ensures s.high == [] && s.low == [] && s.dw == None
  {
  }

  lemma Drained(s: State) returns (acts: seq<Action>, t: State)
    requires Inv(s) && s.poller.Merging? && s.pipe == []
    requires forall i :: 0 <= i < |s.writers| ==> s.writers[i].Ready?
    ensures Full(s, acts) && Run(s, acts) == Next(t)
    ensures t.high == [] && t.low == [] && t.dw == None && t.pipe == [] && t.writers == s.writers && t.asked == s.asked
  {
    DrainsAll(s);
    var rest := if s.dw.Some? then s.dw.value.m.data[s.dw.value.off..] else [];
    var first := if s.dw.Some? then [s.dw.value.m] else [];
    t := s.(high := [], low := [], size := 0, dw := None, armed := false, lock := Free, poller := Polling,
            wire := s.wire + rest + Waiting(s.high) + Waiting(s.low),
            done := s.done + first + Messages(s.high) + Messages(s.low));
    acts :| Full(s, acts) && Run(s, acts) == Next(t);
  }
}
