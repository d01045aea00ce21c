/** The spinning read/write lock of rwlock.h under any interleaving of its single reads and atomic operations. */
module RwLock {

  /** Where a thread is. A reader first waits for `write` to be clear, then counts itself in `read`, and
      looks at `write` again; a writer first takes `write`, then waits for `read` to be clear. */
  datatype Thread =
    | Idle
    | Waiting
    | Adding
    | Looking
    | Retreating
    | Reading
    | Taking
    | Draining
    | Writing

  datatype Lock = Lock(write: bool, read: int, threads: seq<Thread>)

  /** What a thread that is idle begins; elsewhere there is no choice. */
  datatype Choice = Read | Write | Go

  function Count(ts: seq<Thread>, kinds: set<Thread>): nat {
    if ts == [] then 0 else Count(ts[..|ts| - 1], kinds) + if ts[|ts| - 1] in kinds then 1 else 0
  }

  lemma {:induction false} CountSet(ts: seq<Thread>, i: nat, t: Thread, kinds: set<Thread>)
    requires i < |ts|
    ensures Count(ts[i := t], kinds) ==
      Count(ts, kinds) - (if ts[i] in kinds then 1 else 0) + (if t in kinds then 1 else 0)
  {
    var k := |ts| - 1;
    if i < k {
      assert ts[i := t][..k] == ts[..k][i := t];
      CountSet(ts[..k], i, t, kinds);
    } else {
      assert ts[i := t][..k] == ts[..k];
    }
  }

  lemma {:induction false} CountTwo(ts: seq<Thread>, i: nat, j: nat, kinds: set<Thread>)
    requires i < j < |ts| && ts[i] in kinds && ts[j] in kinds
    ensures Count(ts, kinds) >= 2
  {
    var k := |ts| - 1;
    if j < k { CountTwo(ts[..k], i, j, kinds); } else { CountOne(ts[..k], i, kinds); }
  }

  lemma {:induction false} CountOne(ts: seq<Thread>, i: nat, kinds: set<Thread>)
    requires i < |ts| && ts[i] in kinds
    ensures Count(ts, kinds) >= 1
  {
    var k := |ts| - 1;
    if i < k { CountOne(ts[..k], i, kinds); }
  }

  lemma {:induction false} CountLess(ts: seq<Thread>, a: set<Thread>, b: set<Thread>)
    requires a <= b
    ensures Count(ts, a) <= Count(ts, b)
  {
    if ts != [] { CountLess(ts[..|ts| - 1], a, b); }
  }

  /** Threads that are counted in `read`. */
  const Counted := {Looking, Retreating, Reading}

  /** Threads that have `write`. */
  const Owning := {Draining, Writing}

  function Move(l: Lock, i: nat, t: Thread): Lock
    requires i < |l.threads|
  {
    l.(threads := l.threads[i := t])
  }

  function Step(l: Lock, i: nat, c: Choice): Lock
    requires i < |l.threads|
  {
    match l.threads[i]
    case Idle => if c.Read? then Move(l, i, Waiting) else if c.Write? then Move(l, i, Taking) else l
    // rwlock_rlock
    case Waiting => if l.write then l else Move(l, i, Adding)
    case Adding => Move(l.(read := l.read + 1), i, Looking)
    case Looking => Move(l, i, if l.write then Retreating else Reading)
    case Retreating => Move(l.(read := l.read - 1), i, Waiting)
    // rwlock_runlock
    case Reading => Move(l.(read := l.read - 1), i, Idle)
    // rwlock_wlock
    case Taking => if l.write then l else Move(l.(write := true), i, Draining)
    case Draining => if l.read != 0 then l else Move(l, i, Writing)
    // rwlock_wunlock
    case Writing => Move(l.(write := false), i, Idle)
  }

  predicate Inv(l: Lock) {
    l.read == Count(l.threads, Counted) &&
    Count(l.threads, Owning) == (if l.write then 1 else 0) &&
    (Count(l.threads, {Writing}) > 0 ==> Count(l.threads, {Reading}) == 0)
  }

  lemma StepInv(l: Lock, i: nat, c: Choice)
    requires Inv(l) && i < |l.threads|
    ensures Inv(Step(l, i, c))
  {
    hide Count;
    var l' := Step(l, i, c);
    var t := l'.threads[i];
    assert l'.threads == l.threads[i := t];
    CountSet(l.threads, i, t, Counted);
    CountSet(l.threads, i, t, Owning);
    CountSet(l.threads, i, t, {Writing});
    CountSet(l.threads, i, t, {Reading});
    if l.threads[i] == Writing { CountOne(l.threads, i, {Writing}); }
    if l.threads[i] == Looking && !l.write { CountLess(l.threads, {Writing}, Owning); }
    if l.threads[i] == Draining { CountLess(l.threads, {Reading}, Counted); }
  }

  datatype Turn = Turn(i: nat, c: Choice)

  function Run(l: Lock, turns: seq<Turn>): Lock
    decreases |turns|
  {
    if turns == [] then l
    else Run(if turns[0].i < |l.threads| then Step(l, turns[0].i, turns[0].c) else l, turns[1..])
  }

  function Init(n: nat): Lock { Lock(false, 0, seq(n, _ => Idle)) }

  lemma {:induction false} CountIdle(n: nat, kinds: set<Thread>)
    requires Idle !in kinds
    ensures Count(seq(n, _ => Idle), kinds) == 0
  {
    if n > 0 {
      assert seq(n, _ => Idle)[..n - 1] == seq(n - 1, _ => Idle);
      CountIdle(n - 1, kinds);
    }
  }

  lemma {:induction false} RunInv(l: Lock, turns: seq<Turn>)
    requires Inv(l)
    ensures Inv(Run(l, turns))
    decreases |turns|
  {
    if turns != [] {
      if turns[0].i < |l.threads| {
        StepInv(l, turns[0].i, turns[0].c);
        RunInv(Step(l, turns[0].i, turns[0].c), turns[1..]);
      } else {
        RunInv(l, turns[1..]);
      }
    }
  }

  lemma InitInv(n: nat)
    ensures Inv(Init(n))
  {
    CountIdle(n, Counted);
    CountIdle(n, Owning);
    CountIdle(n, {Writing});
    CountIdle(n, {Reading});
  }

  /** With any number of threads, in every interleaving, `read` is the number of readers inside and of those
      between counting themselves and their retreat, and `write` is set exactly while a thread owns it. */
  lemma ReadCount(n: nat, turns: seq<Turn>)
    ensures
      var l := Run(Init(n), turns);
      l.read == Count(l.threads, Counted) && Count(l.threads, Owning) == if l.write then 1 else 0
  {
    InitInv(n);
    RunInv(Init(n), turns);
  }

  /** A writer shares its section with no other writer and with no reader. */
  lemma Exclusion(n: nat, turns: seq<Turn>, i: nat, j: nat)
    requires
      var l := Run(Init(n), turns);
      i < |l.threads| && j < |l.threads| && i != j && l.threads[i].Writing?
    ensures
      var l := Run(Init(n), turns);
      !l.threads[j].Writing? && !l.threads[j].Reading? && l.read == Count(l.threads, Counted)
  {
    InitInv(n);
    RunInv(Init(n), turns);
    hide Run;
    var l := Run(Init(n), turns);
    CountOne(l.threads, i, {Writing});
    if l.threads[j].Writing? {
      CountTwo(l.threads, if i < j then i else j, if i < j then j else i, Owning);
    } else if l.threads[j].Reading? {
      CountOne(l.threads, j, {Reading});
    }
  }
}
