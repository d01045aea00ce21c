/** Threads get into the spinning read/write lock and out of it again, and no state of it is a deadlock. */
module RwProgress {
  import opened RwLock

  /** `rwlock_rlock` by a thread on its own while nobody has `write`, and `rwlock_runlock`. */
  lemma ReaderPasses(l: Lock, i: nat)
    requires i < |l.threads| && l.threads[i].Idle? && !l.write
    ensures
      var inside := Run(l, [Turn(i, Read), Turn(i, Go), Turn(i, Go), Turn(i, Go)]);
      inside == l.(read := l.read + 1, threads := l.threads[i := Reading]) && Step(inside, i, Go) == l
  {
    var l1 := Move(l, i, Waiting);
    var l2 := Move(l, i, Adding);
    var l3 := Move(l.(read := l.read + 1), i, Looking);
    var l4 := Move(l.(read := l.read + 1), i, Reading);
    assert Step(l, i, Read) == l1 && Step(l1, i, Go) == l2 && Step(l2, i, Go) == l3 && Step(l3, i, Go) == l4;
    assert Step(l4, i, Go) == l;
    hide Step;
    Four(l, i, Read, l1, l2, l3, l4);
  }

  lemma Four(l: Lock, i: nat, c: Choice, l1: Lock, l2: Lock, l3: Lock, l4: Lock)
    requires i < |l.threads| == |l1.threads| == |l2.threads| == |l3.threads|
    requires Step(l, i, c) == l1 && Step(l1, i, Go) == l2 && Step(l2, i, Go) == l3 && Step(l3, i, Go) == l4
    ensures Run(l, [Turn(i, c), Turn(i, Go), Turn(i, Go), Turn(i, Go)]) == l4
  {
    hide Step;
    var ts := [Turn(i, c), Turn(i, Go), Turn(i, Go), Turn(i, Go)];
    assert ts[1..] == [Turn(i, Go), Turn(i, Go), Turn(i, Go)];
    Three(l1, i, Go, l2, l3, l4);
  }

  lemma Three(l: Lock, i: nat, c: Choice, l1: Lock, l2: Lock, l3: Lock)
    requires i < |l.threads| == |l1.threads| == |l2.threads|
    requires Step(l, i, c) == l1 && Step(l1, i, Go) == l2 && Step(l2, i, Go) == l3
    ensures Run(l, [Turn(i, c), Turn(i, Go), Turn(i, Go)]) == l3
  {
    hide Step;
    var ts := [Turn(i, c), Turn(i, Go), Turn(i, Go)];
    assert ts[1..] == [Turn(i, Go), Turn(i, Go)] && ts[1..][1..] == [Turn(i, Go)] && ts[1..][1..][1..] == [];
    assert Run(l2, [Turn(i, Go)]) == Run(l3, []);
    assert Run(l1, [Turn(i, Go), Turn(i, Go)]) == Run(l2, [Turn(i, Go)]);
  }

  /** `rwlock_wlock` by a thread on its own while nobody is inside, and `rwlock_wunlock`. */
  lemma WriterPasses(l: Lock, i: nat)
    requires i < |l.threads| && l.threads[i].Idle? && !l.write && l.read == 0
    ensures
      var inside := Run(l, [Turn(i, Write), Turn(i, Go), Turn(i, Go)]);
      inside == l.(write := true, threads := l.threads[i := Writing]) && Step(inside, i, Go) == l
  {
    var l1 := Move(l, i, Taking);
    var l2 := Move(l.(write := true), i, Draining);
    var l3 := Move(l.(write := true), i, Writing);
    assert Step(l, i, Write) == l1 && Step(l1, i, Go) == l2 && Step(l2, i, Go) == l3 && Step(l3, i, Go) == l;
    hide Step;
    Three(l, i, Write, l1, l2, l3);
  }

  // ----- no deadlock -----

  /** What is left for a writer to do, for a reader that meets a writer, and for a reader that does not. */
  function ToWrite(t: Thread): nat { if t == Taking then 3 else if t == Draining then 2 else if t == Writing then 1 else 0 }

  function ToLeave(t: Thread): nat {
    if t == Looking then 2 else if t == Retreating || t == Reading then 1 else 0
  }

  function ToRead(t: Thread): nat {
    if t == Retreating then 5 else if t == Waiting then 4 else if t == Adding then 3
    else if t == Looking then 2 else if t == Reading then 1 else 0
  }

  function Sum(ts: seq<Thread>, f: Thread -> nat): nat {
    if ts == [] then 0 else Sum(ts[..|ts| - 1], f) + f(ts[|ts| - 1])
  }

  lemma {:induction false} SumSet(ts: seq<Thread>, i: nat, t: Thread, f: Thread -> nat)
    requires i < |ts|
    ensures Sum(ts[i := t], f) == Sum(ts, f) - f(ts[i]) + f(t)
  {
    var k := |ts| - 1;
    if i < k {
      assert ts[i := t][..k] == ts[..k][i := t];
      SumSet(ts[..k], i, t, f);
    } else {
      assert ts[i := t][..k] == ts[..k];
    }
  }

  function Rest(l: Lock): nat { if l.write then Sum(l.threads, ToLeave) else Sum(l.threads, ToRead) }

  lemma {:induction false} SomeOf(ts: seq<Thread>, kinds: set<Thread>) returns (i: nat)
    requires Count(ts, kinds) > 0
    ensures i < |ts| && ts[i] in kinds
  {
    if ts[|ts| - 1] in kinds { i := |ts| - 1; } else { i := SomeOf(ts[..|ts| - 1], kinds); }
  }

  /** A thread whose step brings the end nearer. */
  lemma Mover(l: Lock, busy: nat) returns (i: nat)
    requires Inv(l) && busy < |l.threads| && !l.threads[busy].Idle?
    ensures i < |l.threads|
    ensures
      var t := l.threads[i];
      if l.write then t == Writing || (t == Draining && l.read == 0) || t in Counted else t == l.threads[busy]
  {
    hide Count;
    if !l.write {
      i := busy;
    } else {
      i := SomeOf(l.threads, Owning);
      if l.threads[i] == Draining && l.read != 0 { i := SomeOf(l.threads, Counted); }
    }
  }

  lemma OwnerWrites(l: Lock, i: nat)
    requires Inv(l) && i < |l.threads| && l.threads[i] in Owning
    ensures l.write
  {
    CountOne(l.threads, i, Owning);
  }

  lemma Nearer(l: Lock, i: nat)
    requires Inv(l) && i < |l.threads|
    requires
      var t := l.threads[i];
      if l.write then t == Writing || (t == Draining && l.read == 0) || t in Counted else t != Idle && t !in Owning
    ensures
      var l' := Step(l, i, Go);
      |l'.threads| == |l.threads| &&
      (Sum(l'.threads, ToWrite) < Sum(l.threads, ToWrite) ||
       (Sum(l'.threads, ToWrite) == Sum(l.threads, ToWrite) && Rest(l') < Rest(l)))
  {
    hide Sum, Inv;
    var l' := Step(l, i, Go);
    assert l'.threads == l.threads[i := l'.threads[i]];
    SumSet(l.threads, i, l'.threads[i], ToWrite);
    SumSet(l.threads, i, l'.threads[i], ToLeave);
    SumSet(l.threads, i, l'.threads[i], ToRead);
  }

  /** From every state that can be reached there is a way on after which no thread is inside or waits, nobody is counted
      and nobody owns the lock. */
  lemma {:induction false} NoDeadlock(l: Lock)
    requires Inv(l)
    ensures exists turns ::
      var t := Run(l, turns);
      |t.threads| == |l.threads| && t.read == 0 && !t.write && forall i :: 0 <= i < |t.threads| ==> t.threads[i].Idle?
    decreases Sum(l.threads, ToWrite), Rest(l)
  {
    hide Count, Step, Sum, Inv, Rest;
    if busy: nat :| busy < |l.threads| && !l.threads[busy].Idle? {
      var i := Mover(l, busy);
      if !l.write && l.threads[i] in Owning { OwnerWrites(l, i); }
      Nearer(l, i);
      StepInv(l, i, Go);
      var l' := Step(l, i, Go);
      NoDeadlock(l');
      var turns :|
        var t := Run(l', turns);
        |t.threads| == |l'.threads| && t.read == 0 && !t.write && forall k :: 0 <= k < |t.threads| ==> t.threads[k].Idle?;
      var all := [Turn(i, Go)] + turns;
      assert all[0] == Turn(i, Go) && all[1..] == turns;
      assert Run(l, all) == Run(l', turns);
    } else {
      NobodyCounts(l);
      assert Run(l, []) == l;
    }
  }

  lemma NobodyCounts(l: Lock)
    requires Inv(l) && forall i :: 0 <= i < |l.threads| ==> l.threads[i].Idle?
    ensures l.read == 0 && !l.write
  {
    NoneIn(l.threads, Counted);
    NoneIn(l.threads, Owning);
  }

  lemma {:induction false} NoneIn(ts: seq<Thread>, kinds: set<Thread>)
    requires (forall i :: 0 <= i < |ts| ==> ts[i].Idle?) && Idle !in kinds
    ensures Count(ts, kinds) == 0
  {
    if ts != [] { NoneIn(ts[..|ts| - 1], kinds); }
  }
}
