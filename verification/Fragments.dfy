/** How the code layouts behave on the machine, whatever code they are built from. */
module Fragments {
  import opened Common
  import opened Peg
  import opened Vm
  import opened Codegen

  ghost predicate At(code: seq<Slot>, pc: int, frag: seq<Slot>) {
    0 <= pc && pc + |frag| <= |code| && code[pc..pc + |frag|] == frag
  }

  lemma AtSplit(code: seq<Slot>, pc: int, a: seq<Slot>, b: seq<Slot>)
    requires At(code, pc, a + b)
    ensures At(code, pc, a) && At(code, pc + |a|, b)
  {
    var n := |a|;
    assert code[pc..pc + n] == (code[pc..pc + |a + b|])[..n];
    assert code[pc + n..pc + |a + b|] == (code[pc..pc + |a + b|])[n..];
  }

  lemma AtSplit3(code: seq<Slot>, pc: int, a: seq<Slot>, b: seq<Slot>, c: seq<Slot>)
    requires At(code, pc, a + b + c)
    ensures At(code, pc, a) && At(code, pc + |a|, b) && At(code, pc + |a| + |b|, c)
  {
    AtSplit(code, pc, a + b, c);
    AtSplit(code, pc, a, b);
  }

  lemma AtSplit4(code: seq<Slot>, pc: int, a: seq<Slot>, b: seq<Slot>, c: seq<Slot>, d: seq<Slot>)
    requires At(code, pc, a + b + c + d)
    ensures At(code, pc, a) && At(code, pc + |a|, b) && At(code, pc + |a| + |b|, c)
    ensures At(code, pc + |a| + |b| + |c|, d)
  {
    AtSplit(code, pc, a + b + c, d);
    AtSplit3(code, pc, a, b, c);
  }

  lemma AtGet(code: seq<Slot>, pc: int, frag: seq<Slot>, k: nat)
    requires At(code, pc, frag) && k < |frag|
    ensures code[pc + k] == frag[k]
  {
    assert code[pc + k] == code[pc..pc + |frag|][k];
  }

  // ----- single instructions -----

  lemma LabelledAt(code: seq<Slot>, pc: int, op: Opcode, d: int)
    requires At(code, pc, Labelled(op, d))
    ensures 0 <= pc < |code| - 1 && code[pc] == Inst(op, 0) && code[pc + 1] == Offset(d)
  {
    AtGet(code, pc, Labelled(op, d), 0);
    AtGet(code, pc, Labelled(op, d), 1);
  }

  lemma RunJmp(m: Machine, d: int, pc: int, i: nat, st: seq<Entry>)
    requires At(m.code, pc, Labelled(IJmp, d)) && i <= |m.subject|
    ensures m.Reaches(Run(pc, i, st), Run(pc + d, i, st))
  {
    LabelledAt(m.code, pc, IJmp, d);
    m.One(Run(pc, i, st));
  }

  lemma RunChoice(m: Machine, d: int, pc: int, i: nat, st: seq<Entry>)
    requires At(m.code, pc, Labelled(IChoice, d)) && i <= |m.subject| && |st| < m.limit
    ensures m.Reaches(Run(pc, i, st), Run(pc + 2, i, Push(st, pc + d, i)))
  {
    LabelledAt(m.code, pc, IChoice, d);
    m.One(Run(pc, i, st));
  }

  lemma RunCommit(m: Machine, d: int, pc: int, i: nat, st: seq<Entry>)
    requires At(m.code, pc, Labelled(ICommit, d)) && i <= |m.subject| && st != []
    ensures m.Reaches(Run(pc, i, st), Run(pc + d, i, Pop(st)))
  {
    LabelledAt(m.code, pc, ICommit, d);
    m.One(Run(pc, i, st));
  }

  lemma RunPartialCommit(m: Machine, d: int, pc: int, i: nat, st: seq<Entry>)
    requires At(m.code, pc, Labelled(IPartialCommit, d)) && i <= |m.subject| && st != []
    ensures m.Reaches(Run(pc, i, st), Run(pc + d, i, Push(Pop(st), Top(st).pc, i)))
  {
    LabelledAt(m.code, pc, IPartialCommit, d);
    m.One(Run(pc, i, st));
  }

  lemma RunBackCommit(m: Machine, d: int, pc: int, i: nat, st: seq<Entry>)
    requires At(m.code, pc, Labelled(IBackCommit, d)) && i <= |m.subject| && st != []
    ensures m.Reaches(Run(pc, i, st), Run(pc + d, Top(st).pos, Pop(st)))
  {
    LabelledAt(m.code, pc, IBackCommit, d);
    m.One(Run(pc, i, st));
  }

  lemma RunFail(m: Machine, pc: int, i: nat, st: seq<Entry>)
    requires At(m.code, pc, Simple(IFail, 0)) && i <= |m.subject|
    ensures m.Reaches(Run(pc, i, st), Backtrack(st))
  {
    AtGet(m.code, pc, Simple(IFail, 0), 0);
    m.One(Run(pc, i, st));
  }

  lemma RunFailTwice(m: Machine, pc: int, i: nat, st: seq<Entry>)
    requires At(m.code, pc, Simple(IFailTwice, 0)) && i <= |m.subject| && st != []
    ensures m.Reaches(Run(pc, i, st), Backtrack(Pop(st)))
  {
    AtGet(m.code, pc, Simple(IFailTwice, 0), 0);
    m.One(Run(pc, i, st));
  }

  lemma RunBehind(m: Machine, n: nat, pc: int, i: nat, st: seq<Entry>)
    requires At(m.code, pc, CodeBehind(n)) && i <= |m.subject| && n < 256
    ensures m.Reaches(Run(pc, i, st), if n <= i then Run(pc + |CodeBehind(n)|, i - n, st) else Backtrack(st))
  {
    if n == 0 {
      m.Refl(Run(pc, i, st));
    } else {
      AtGet(m.code, pc, CodeBehind(n), 0);
      m.One(Run(pc, i, st));
    }
  }

  // ----- tests -----

  function TestSet(tt: Test): Charset {
    match tt
    case NoTest => Full
    case JmpTest => {}
    case AnyTest => Full
    case CharTest(c) => {c}
    case SetTest(cs) => cs
  }

  predicate TestHolds(tt: Test, s: Subject, i: nat) {
    tt.NoTest? || InSet(TestSet(tt), s, i)
  }

  lemma TestForSet(cs: Charset, e: bool)
    ensures e <==> TestFor(cs, e).NoTest?
    ensures !e ==> TestSet(TestFor(cs, e)) == cs
  {
  }

  lemma RunTest(m: Machine, tt: Test, d: int, pc: int, i: nat, st: seq<Entry>)
    requires At(m.code, pc, TestCode(tt, d)) && i <= |m.subject|
    ensures m.Reaches(Run(pc, i, st),
                      Run(if TestHolds(tt, m.subject, i) then pc + TestLen(tt) else pc + d, i, st))
  {
    var a := Run(pc, i, st);
    if tt.NoTest? {
      m.Refl(a);
    } else {
      AtGet(m.code, pc, TestCode(tt, d), 0);
      AtGet(m.code, pc, TestCode(tt, d), 1);
      if tt.SetTest? { AtGet(m.code, pc, TestCode(tt, d), 2); }
      m.One(a);
    }
  }

  // ----- what running a fragment may do -----

  /** Started in `a`, with the backtrack stack `st`, the code that ends at `last` behaves
      as a match with result `r`:
      - it fails if `r` is a failure;
      - otherwise it arrives at `last` at the end of the match. With `opt` it may
        have moved the position saved in the top entry, or may have resumed through that
        entry instead of arriving;
      - or it fails although the match succeeds, but then the next character is not in
        the follow set. */
  ghost predicate Meets(m: Machine, a: State, r: Option<nat>, opt: bool, fl: Charset, last: int, st: seq<Entry>) {
    match r
    case None => m.Reaches(a, Backtrack(st))
    case Some(j) =>
      || (!opt && m.Reaches(a, Run(last, j, st)))
      || (opt && st != [] && exists x: nat :: m.Reaches(a, Run(last, j, Push(Pop(st), Top(st).pc, x))))
      || (opt && st != [] && m.Reaches(a, Run(Top(st).pc, j, Pop(st))))
      || (InSet(Full - fl, m.subject, j) && m.Reaches(a, Backtrack(st)))
  }

  lemma MeetsAfter(m: Machine, a: State, b: State, r: Option<nat>, opt: bool, fl: Charset, last: int, st: seq<Entry>)
    requires m.Reaches(a, b) && Meets(m, b, r, opt, fl, last, st)
    ensures Meets(m, a, r, opt, fl, last, st)
  {
    hide Machine.Reaches;
    match r
    case None => m.Trans(a, b, Backtrack(st));
    case Some(j) =>
      if !opt && m.Reaches(b, Run(last, j, st)) {
        m.Trans(a, b, Run(last, j, st));
      } else if opt && st != [] && exists x: nat :: m.Reaches(b, Run(last, j, Push(Pop(st), Top(st).pc, x))) {
        var x: nat :| m.Reaches(b, Run(last, j, Push(Pop(st), Top(st).pc, x)));
        m.Trans(a, b, Run(last, j, Push(Pop(st), Top(st).pc, x)));
      } else if opt && st != [] && m.Reaches(b, Run(Top(st).pc, j, Pop(st))) {
        m.Trans(a, b, Run(Top(st).pc, j, Pop(st)));
      } else {
        m.Trans(a, b, Backtrack(st));
      }
  }

  /** Arriving with an untouched stack is a legal outcome, with or without `opt`. */
  lemma MeetsArrive(m: Machine, a: State, j: nat, opt: bool, fl: Charset, last: int, st: seq<Entry>)
    requires m.Reaches(a, Run(last, j, st))
    requires opt ==> st != []
    ensures Meets(m, a, Some(j), opt, fl, last, st)
  {
    hide Machine.Reaches;
    if opt {
      assert st == Push(Pop(st), Top(st).pc, Top(st).pos);
    }
  }

  lemma MeetsFail(m: Machine, a: State, opt: bool, fl: Charset, last: int, st: seq<Entry>)
    ensures Meets(m, a, None, opt, fl, last, st) <==> m.Reaches(a, Backtrack(st))
  {
  }

  lemma MeetsEarly(m: Machine, a: State, j: nat, opt: bool, fl: Charset, last: int, st: seq<Entry>)
    requires InSet(Full - fl, m.subject, j) && m.Reaches(a, Backtrack(st))
    ensures Meets(m, a, Some(j), opt, fl, last, st)
  {
    hide Machine.Reaches;
  }

  lemma MeetsResume(m: Machine, a: State, j: nat, fl: Charset, last: int, st: seq<Entry>)
    requires st != [] && m.Reaches(a, Run(Top(st).pc, j, Pop(st)))
    ensures Meets(m, a, Some(j), true, fl, last, st)
  {
    hide Machine.Reaches;
  }

  /** Without `opt`: what a success amounts to. */
  lemma MeetsPlain(m: Machine, a: State, j: nat, fl: Charset, last: int, st: seq<Entry>)
    requires Meets(m, a, Some(j), false, fl, last, st)
    ensures m.Reaches(a, Run(last, j, st)) || (InSet(Full - fl, m.subject, j) && m.Reaches(a, Backtrack(st)))
  {
    hide Machine.Reaches;
  }

  lemma PopPush(st: seq<Entry>, pc: int, i: nat)
    ensures Push(st, pc, i) != [] && |Push(st, pc, i)| == |st| + 1
    ensures Pop(Push(st, pc, i)) == st && Top(Push(st, pc, i)) == Entry(pc, i)
  {
  }

  /** With a full follow set and no `opt`, the code follows the match exactly. */
  lemma MeetsExact(m: Machine, a: State, r: Option<nat>, last: int, st: seq<Entry>)
    requires Meets(m, a, r, false, Full, last, st)
    ensures m.Reaches(a, if r.Some? then Run(last, r.value, st) else Backtrack(st))
  {
    hide Machine.Reaches;
  }

  /** After an optional pattern whose entry resumes where the commit leads, the machine is
      there in any case. */
  lemma MeetsCommitted(m: Machine, a: State, j: nat, opt: bool, d: int, last: int, st: seq<Entry>, saved: nat)
    requires At(m.code, last, Labelled(ICommit, d)) && j <= |m.subject|
    requires opt ==> d == 2
    requires Meets(m, a, Some(j), opt, Full, last, Push(st, last + 2, saved))
    ensures m.Reaches(a, Run(last + d, j, st))
  {
    hide Machine.Reaches;
    var st1 := Push(st, last + 2, saved);
    assert Pop(st1) == st;
    if opt && m.Reaches(a, Run(last + 2, j, st)) {
    } else {
      var st2: seq<Entry>;
      if opt {
        var x: nat :| m.Reaches(a, Run(last, j, Push(Pop(st1), Top(st1).pc, x)));
        st2 := Push(Pop(st1), Top(st1).pc, x);
      } else {
        st2 := st1;
      }
      assert Pop(st2) == st;
      RunCommit(m, d, last, j, st2);
      m.Trans(a, Run(last, j, st2), Run(last + d, j, st));
    }
  }

  // ----- single characters -----

  /** Code that matches one character of `cs`, possibly relying on the test `tt`. */
  predicate OneCharCode(g: seq<Slot>, cs: Charset, tt: Test) {
    || (g == Simple(IAny, 0) && (cs == Full || (!tt.NoTest? && TestSet(tt) == cs)))
    || (|cs| == 1 && exists c: Byte :: cs == {c} && g == Simple(IChar, c))
    || g == Simple(ISet, 0) + SetSlots(cs)
    || (g == Simple(IFail, 0) && cs == {})
  }

  lemma OneCharRuns(m: Machine, g: seq<Slot>, cs: Charset, opt: bool, tt: Test, fl: Charset,
                    pc: int, i: nat, st: seq<Entry>)
    requires At(m.code, pc, g) && OneCharCode(g, cs, tt) && TestHolds(tt, m.subject, i)
    requires i <= |m.subject| && (opt ==> st != [])
    ensures Meets(m, Run(pc, i, st), Step1(InSet(cs, m.subject, i), i), opt, fl, pc + |g|, st)
  {
    hide Machine.Reaches;
    var a := Run(pc, i, st);
    AtGet(m.code, pc, g, 0);
    if |g| > 1 { AtGet(m.code, pc, g, 1); }
    m.One(a);
    if InSet(cs, m.subject, i) {
      assert m.Step(a) == Run(pc + |g|, i + 1, st);
      MeetsArrive(m, a, i + 1, opt, fl, pc + |g|, st);
    } else {
      assert m.Step(a) == Backtrack(st);
    }
  }

  // ----- layouts -----

  lemma ChoiceByTestAt(code: seq<Slot>, pc: int, test: Test, c1: seq<Slot>, jump: bool, c2: seq<Slot>)
    requires At(code, pc, ChoiceByTestCode(test, c1, jump, c2))
    ensures At(code, pc, TestCode(test, TestLen(test) + |c1| + (if jump then 2 else 0)))
    ensures At(code, pc + TestLen(test), c1)
    ensures jump ==> At(code, pc + TestLen(test) + |c1|, Labelled(IJmp, 2 + |c2|))
    ensures At(code, pc + TestLen(test) + |c1| + (if jump then 2 else 0), c2)
  {
    hide At, TestCode, TestLen, Labelled;
    var jmp := if jump then Labelled(IJmp, 2 + |c2|) else [];
    AtSplit4(code, pc, TestCode(test, TestLen(test) + |c1| + |jmp|), c1, jmp, c2);
  }

  /** The layout after its test: `pc1` is where `c1` starts, `ok` whether the test let it through. */
  lemma ChoiceByTestRest(m: Machine, ok: bool, a: State, n1: nat, jump: bool, n2: nat,
                         opt: bool, fl: Charset, pc1: int, i: nat, st: seq<Entry>,
                         r1: Option<nat>, r2: Option<nat>, l1: int)
    requires l1 == pc1 + n1 + (if jump then 2 else 0)
    requires jump ==> At(m.code, pc1 + n1, Labelled(IJmp, 2 + n2))
    requires m.Reaches(a, Run(if ok then pc1 else l1, i, st))
    requires i <= |m.subject| && (opt ==> st != []) && (!jump ==> n2 == 0)
    requires r1.Some? ==> r1.value <= |m.subject|
    requires ok ==> Meets(m, Run(pc1, i, st), r1, false, fl, pc1 + n1, st)
    requires ok && r1.None? && r2.Some? ==> InSet(Full - fl, m.subject, r2.value)
    requires !ok ==> r1.None? && Meets(m, Run(l1, i, st), r2, opt, fl, l1 + n2, st)
    ensures Meets(m, a, if r1.Some? then r1 else r2, opt, fl, l1 + n2, st)
  {
    hide Machine.Reaches, Meets, At, Labelled;
    if ok {
      MeetsAfter(m, a, Run(pc1, i, st), r1, false, fl, pc1 + n1, st);
      if r1.Some? {
        var e := Run(pc1 + n1, r1.value, st);
        MeetsPlain(m, a, r1.value, fl, pc1 + n1, st);
        if m.Reaches(a, e) {
          if jump {
            RunJmp(m, 2 + n2, pc1 + n1, r1.value, st);
            m.Trans(a, e, Run(l1 + n2, r1.value, st));
          }
          MeetsArrive(m, a, r1.value, opt, fl, l1 + n2, st);
        } else {
          MeetsEarly(m, a, r1.value, opt, fl, l1 + n2, st);
        }
      } else {
        MeetsFail(m, a, false, fl, pc1 + n1, st);
        if r2.Some? { MeetsEarly(m, a, r2.value, opt, fl, l1 + n2, st); }
        else { MeetsFail(m, a, opt, fl, l1 + n2, st); }
      }
    } else {
      MeetsAfter(m, a, Run(l1, i, st), r2, opt, fl, l1 + n2, st);
    }
  }

  lemma ChoiceByTestRuns(m: Machine, test: Test, c1: seq<Slot>, jump: bool, c2: seq<Slot>,
                         opt: bool, fl: Charset, pc: int, i: nat, st: seq<Entry>,
                         r1: Option<nat>, r2: Option<nat>)
    requires At(m.code, pc, ChoiceByTestCode(test, c1, jump, c2))
    requires i <= |m.subject| && (opt ==> st != []) && (!jump ==> c2 == [])
    requires r1.Some? ==> r1.value <= |m.subject|
    requires TestHolds(test, m.subject, i) ==>
      Meets(m, Run(pc + TestLen(test), i, st), r1, false, fl, pc + TestLen(test) + |c1|, st)
    requires TestHolds(test, m.subject, i) && r1.None? && r2.Some? ==> InSet(Full - fl, m.subject, r2.value)
    requires var l1 := pc + TestLen(test) + |c1| + (if jump then 2 else 0);
      !TestHolds(test, m.subject, i) ==>
        r1.None? && Meets(m, Run(l1, i, st), r2, opt, fl, l1 + |c2|, st)
    ensures Meets(m, Run(pc, i, st), if r1.Some? then r1 else r2, opt, fl,
                  pc + |ChoiceByTestCode(test, c1, jump, c2)|, st)
  {
    hide *;
    var d := TestLen(test) + |c1| + (if jump then 2 else 0);
    ChoiceByTestAt(m.code, pc, test, c1, jump, c2);
    RunTest(m, test, d, pc, i, st);
    ChoiceByTestRest(m, TestHolds(test, m.subject, i), Run(pc, i, st), |c1|, jump, |c2|, opt, fl,
                     pc + TestLen(test), i, st, r1, r2, pc + d);
  }

  lemma OptionalRuns(m: Machine, c: seq<Slot>, pc: int, i: nat, st: seq<Entry>, r: Option<nat>)
    requires At(m.code, pc, OptionalCode(c))
    requires i <= |m.subject| && st != []
    requires Meets(m, Run(pc + 2, i, Push(Pop(st), Top(st).pc, i)), r, true, Full, pc + 2 + |c|,
                   Push(Pop(st), Top(st).pc, i))
    ensures Meets(m, Run(pc, i, st), if r.Some? then r else Some(i), true, Full, pc + |OptionalCode(c)|, st)
  {
    hide Machine.Reaches;
    AtSplit(m.code, pc, Labelled(IPartialCommit, 2), c);
    RunPartialCommit(m, 2, pc, i, st);
    var st1 := Push(Pop(st), Top(st).pc, i);
    assert Pop(st1) == Pop(st) && Top(st1) == Entry(Top(st).pc, i);
    MeetsAfter(m, Run(pc, i, st), Run(pc + 2, i, st1), r, true, Full, pc + 2 + |c|, st1);
  }

  lemma ChoiceAt(code: seq<Slot>, pc: int, test: Test, c1: seq<Slot>, c2: seq<Slot>)
    requires At(code, pc, ChoiceCode(test, c1, c2))
    ensures At(code, pc, TestCode(test, TestLen(test) + |c1| + 4))
    ensures At(code, pc + TestLen(test), Labelled(IChoice, |c1| + 4))
    ensures At(code, pc + TestLen(test) + 2, c1)
    ensures At(code, pc + TestLen(test) + 2 + |c1|, Labelled(ICommit, 2 + |c2|))
    ensures At(code, pc + TestLen(test) + |c1| + 4, c2)
  {
    hide At, TestCode, TestLen, Labelled;
    AtSplit(code, pc, TestCode(test, TestLen(test) + |c1| + 4),
            Labelled(IChoice, |c1| + 4) + c1 + Labelled(ICommit, 2 + |c2|) + c2);
    AtSplit4(code, pc + TestLen(test), Labelled(IChoice, |c1| + 4), c1, Labelled(ICommit, 2 + |c2|), c2);
  }

  lemma ChoiceRest(m: Machine, ok: bool, a: State, n1: nat, opt1: bool, n2: nat,
                   opt: bool, fl: Charset, pc0: int, i: nat, st: seq<Entry>,
                   r1: Option<nat>, r2: Option<nat>, l1: int)
    requires l1 == pc0 + n1 + 4
    requires At(m.code, pc0, Labelled(IChoice, n1 + 4)) && At(m.code, pc0 + 2 + n1, Labelled(ICommit, 2 + n2))
    requires m.Reaches(a, Run(if ok then pc0 else l1, i, st))
    requires i <= |m.subject| && |st| < m.limit && (opt ==> st != []) && (opt1 ==> n2 == 0)
    requires r1.Some? ==> r1.value <= |m.subject|
    requires ok ==> Meets(m, Run(pc0 + 2, i, Push(st, l1, i)), r1, opt1, Full, pc0 + 2 + n1, Push(st, l1, i))
    requires !ok ==> r1.None?
    requires Meets(m, Run(l1, i, st), r2, opt, fl, l1 + n2, st)
    ensures Meets(m, a, if r1.Some? then r1 else r2, opt, fl, l1 + n2, st)
  {
    hide Machine.Reaches, Meets, At, Labelled, Push, Pop, Top;
    if ok {
      RunChoice(m, n1 + 4, pc0, i, st);
      var st1 := Push(st, l1, i);
      m.Trans(a, Run(pc0, i, st), Run(pc0 + 2, i, st1));
      MeetsAfter(m, a, Run(pc0 + 2, i, st1), r1, opt1, Full, pc0 + 2 + n1, st1);
      if r1.Some? {
        MeetsCommitted(m, a, r1.value, opt1, 2 + n2, pc0 + 2 + n1, st, i);
        MeetsArrive(m, a, r1.value, opt, fl, l1 + n2, st);
      } else {
        MeetsFail(m, a, opt1, Full, pc0 + 2 + n1, st1);
        PopPush(st, l1, i);
        MeetsAfter(m, a, Run(l1, i, st), r2, opt, fl, l1 + n2, st);
      }
    } else {
      MeetsAfter(m, a, Run(l1, i, st), r2, opt, fl, l1 + n2, st);
    }
  }

  lemma ChoiceRuns(m: Machine, test: Test, c1: seq<Slot>, opt1: bool, c2: seq<Slot>,
                   opt: bool, fl: Charset, pc: int, i: nat, st: seq<Entry>,
                   r1: Option<nat>, r2: Option<nat>)
    requires At(m.code, pc, ChoiceCode(test, c1, c2))
    requires i <= |m.subject| && |st| < m.limit && (opt ==> st != []) && (opt1 ==> c2 == [])
    requires r1.Some? ==> r1.value <= |m.subject|
    requires var pc1 := pc + TestLen(test) + 2;
      var st1 := Push(st, pc1 + |c1| + 2, i);
      TestHolds(test, m.subject, i) ==> Meets(m, Run(pc1, i, st1), r1, opt1, Full, pc1 + |c1|, st1)
    requires !TestHolds(test, m.subject, i) ==> r1.None?
    requires var l1 := pc + TestLen(test) + |c1| + 4;
      Meets(m, Run(l1, i, st), r2, opt, fl, l1 + |c2|, st)
    ensures Meets(m, Run(pc, i, st), if r1.Some? then r1 else r2, opt, fl,
                  pc + |ChoiceCode(test, c1, c2)|, st)
  {
    hide *;
    var d := TestLen(test) + |c1| + 4;
    ChoiceAt(m.code, pc, test, c1, c2);
    RunTest(m, test, d, pc, i, st);
    ChoiceRest(m, TestHolds(test, m.subject, i), Run(pc, i, st), |c1|, opt1, |c2|, opt, fl,
               pc + TestLen(test), i, st, r1, r2, pc + d);
  }

  lemma SpanRuns(m: Machine, cs: Charset, opt: bool, fl: Charset, pc: int, i: nat, st: seq<Entry>)
    requires At(m.code, pc, SpanCode(cs))
    requires i <= |m.subject| && (opt ==> st != [])
    ensures Meets(m, Run(pc, i, st), Some(Span(cs, m.subject, i)), opt, fl, pc + |SpanCode(cs)|, st)
  {
    hide Machine.Reaches;
    AtGet(m.code, pc, SpanCode(cs), 0);
    AtGet(m.code, pc, SpanCode(cs), 1);
    m.One(Run(pc, i, st));
    MeetsArrive(m, Run(pc, i, st), Span(cs, m.subject, i), opt, fl, pc + |SpanCode(cs)|, st);
  }

  lemma RepByTestAt(code: seq<Slot>, pc: int, test: Test, c: seq<Slot>)
    requires At(code, pc, RepByTestCode(test, c))
    ensures At(code, pc, TestCode(test, TestLen(test) + |c| + 2))
    ensures At(code, pc + TestLen(test), c)
    ensures At(code, pc + TestLen(test) + |c|, Labelled(IJmp, -(TestLen(test) + |c|)))
  {
    hide At, TestCode, TestLen, Labelled;
    AtSplit3(code, pc, TestCode(test, TestLen(test) + |c| + 2), c, Labelled(IJmp, -(TestLen(test) + |c|)));
  }

  /** One turn of the loop `L1: test -> L2; c; jmp L1; L2:`; `r` is the result of the body
      and `rest` that of the repetition from where the body ended. */
  lemma RepByTestRuns(m: Machine, test: Test, c: seq<Slot>, opt: bool, fl: Charset, pc: int, i: nat,
                      st: seq<Entry>, r: Option<nat>, rest: Option<nat>)
    requires At(m.code, pc, RepByTestCode(test, c))
    requires i <= |m.subject| && (opt ==> st != [])
    requires r.Some? ==> r.value <= |m.subject|
    requires TestHolds(test, m.subject, i) ==>
      Meets(m, Run(pc + TestLen(test), i, st), r, false, Full, pc + TestLen(test) + |c|, st)
    requires TestHolds(test, m.subject, i) && r.None? ==> InSet(Full - fl, m.subject, i)
    requires !TestHolds(test, m.subject, i) ==> r.None?
    requires r.Some? ==> Meets(m, Run(pc, r.value, st), rest, opt, fl, pc + |RepByTestCode(test, c)|, st)
    ensures Meets(m, Run(pc, i, st), if r.Some? then rest else Some(i), opt, fl,
                  pc + |RepByTestCode(test, c)|, st)
  {
    hide Machine.Reaches, Meets, At, TestCode, TestLen, Labelled, RepByTestCode, TestHolds;
    var a := Run(pc, i, st);
    var d := TestLen(test) + |c| + 2;
    var back := -(TestLen(test) + |c|);
    var pc1 := pc + TestLen(test);
    RepByTestAt(m.code, pc, test, c);
    RunTest(m, test, d, pc, i, st);
    if TestHolds(test, m.subject, i) {
      MeetsAfter(m, a, Run(pc1, i, st), r, false, Full, pc1 + |c|, st);
      MeetsExact(m, a, r, pc1 + |c|, st);
      if r.Some? {
        RunJmp(m, back, pc1 + |c|, r.value, st);
        m.Trans(a, Run(pc1 + |c|, r.value, st), Run(pc, r.value, st));
        MeetsAfter(m, a, Run(pc, r.value, st), rest, opt, fl, pc + d, st);
      } else {
        MeetsEarly(m, a, i, opt, fl, pc + d, st);
      }
    } else {
      MeetsArrive(m, a, i, opt, fl, pc + d, st);
    }
  }

  lemma RepAt(code: seq<Slot>, pc: int, test: Test, opt: bool, c: seq<Slot>)
    requires At(code, pc, RepCode(test, opt, c))
    ensures At(code, pc, TestCode(test, TestLen(test) + |c| + 4))
    ensures At(code, pc + TestLen(test), if opt then Labelled(IPartialCommit, 2) else Labelled(IChoice, |c| + 4))
    ensures At(code, pc + TestLen(test) + 2, c)
    ensures At(code, pc + TestLen(test) + 2 + |c|, Labelled(IPartialCommit, -|c|))
  {
    hide At, TestCode, TestLen, Labelled;
    var enter := if opt then Labelled(IPartialCommit, 2) else Labelled(IChoice, |c| + 4);
    AtSplit4(code, pc, TestCode(test, TestLen(test) + |c| + 4), enter, c, Labelled(IPartialCommit, -|c|));
  }

  lemma RepRest(m: Machine, ok: bool, a: State, n: nat, opt: bool, fl: Charset, pc0: int, i: nat,
                st: seq<Entry>, j: nat, l2: int)
    requires l2 == pc0 + n + 4
    requires At(m.code, pc0, if opt then Labelled(IPartialCommit, 2) else Labelled(IChoice, n + 4))
    requires m.Reaches(a, Run(if ok then pc0 else l2, i, st))
    requires i <= |m.subject| && |st| < m.limit && (opt ==> st != [])
    requires !ok ==> j == i
    requires var st1 := if opt then Push(Pop(st), Top(st).pc, i) else Push(st, l2, i);
      ok ==> m.Reaches(Run(pc0 + 2, i, st1), Run(Top(st1).pc, j, Pop(st1)))
    ensures Meets(m, a, Some(j), opt, fl, l2, st)
  {
    hide Machine.Reaches, Meets, At, Labelled;
    if ok {
      var b := Run(pc0, i, st);
      if opt {
        RunPartialCommit(m, 2, pc0, i, st);
        var st1 := Push(Pop(st), Top(st).pc, i);
        PopPush(Pop(st), Top(st).pc, i);
        m.Trans(a, b, Run(pc0 + 2, i, st1));
        m.Trans(a, Run(pc0 + 2, i, st1), Run(Top(st).pc, j, Pop(st)));
        MeetsResume(m, a, j, fl, l2, st);
      } else {
        RunChoice(m, n + 4, pc0, i, st);
        var st1 := Push(st, l2, i);
        PopPush(st, l2, i);
        m.Trans(a, b, Run(pc0 + 2, i, st1));
        m.Trans(a, Run(pc0 + 2, i, st1), Run(l2, j, st));
        MeetsArrive(m, a, j, opt, fl, l2, st);
      }
    } else {
      MeetsArrive(m, a, i, opt, fl, l2, st);
    }
  }

  /** Entering the loop `test -> L2; choice L2; L1: c; partialcommit L1; L2:`; the loop itself
      ends by resuming through its entry at `j`. */
  lemma RepRuns(m: Machine, test: Test, c: seq<Slot>, opt: bool, fl: Charset, pc: int, i: nat,
                st: seq<Entry>, j: nat)
    requires At(m.code, pc, RepCode(test, opt, c))
    requires i <= |m.subject| && |st| < m.limit && (opt ==> st != [])
    requires !TestHolds(test, m.subject, i) ==> j == i
    requires var l1 := pc + TestLen(test) + 2;
      var st1 := if opt then Push(Pop(st), Top(st).pc, i) else Push(st, l1 + |c| + 2, i);
      TestHolds(test, m.subject, i) ==> m.Reaches(Run(l1, i, st1), Run(Top(st1).pc, j, Pop(st1)))
    ensures Meets(m, Run(pc, i, st), Some(j), opt, fl, pc + |RepCode(test, opt, c)|, st)
  {
    hide *;
    var d := TestLen(test) + |c| + 4;
    RepAt(m.code, pc, test, opt, c);
    RunTest(m, test, d, pc, i, st);
    RepRest(m, TestHolds(test, m.subject, i), Run(pc, i, st), |c|, opt, fl, pc + TestLen(test), i, st, j, pc + d);
  }

  /** One turn of the loop `L1: c; partialcommit L1`, with the position saved in the top entry. */
  lemma RepBodyRuns(m: Machine, c: seq<Slot>, pc: int, i: nat, st: seq<Entry>, r: Option<nat>, j: nat)
    requires At(m.code, pc + |c|, Labelled(IPartialCommit, -|c|))
    requires i <= |m.subject| && st != [] && Top(st).pos == i
    requires r.Some? ==> r.value <= |m.subject|
    requires Meets(m, Run(pc, i, st), r, false, Full, pc + |c|, st)
    requires r.None? ==> j == i
    requires r.Some? ==> var st1 := Push(Pop(st), Top(st).pc, r.value);
                         m.Reaches(Run(pc, r.value, st1), Run(Top(st1).pc, j, Pop(st1)))
    ensures m.Reaches(Run(pc, i, st), Run(Top(st).pc, j, Pop(st)))
  {
    hide Machine.Reaches;
    var a := Run(pc, i, st);
    MeetsExact(m, a, r, pc + |c|, st);
    if r.Some? {
      var st1 := Push(Pop(st), Top(st).pc, r.value);
      assert Pop(st1) == Pop(st);
      RunPartialCommit(m, -|c|, pc + |c|, r.value, st);
      m.Trans(a, Run(pc + |c|, r.value, st), Run(pc, r.value, st1));
      m.Trans(a, Run(pc, r.value, st1), Run(Top(st).pc, j, Pop(st)));
    }
  }

  lemma NotByTestRuns(m: Machine, test: Test, opt: bool, fl: Charset, pc: int, i: nat, st: seq<Entry>)
    requires At(m.code, pc, NotByTestCode(test))
    requires i <= |m.subject| && (opt ==> st != [])
    ensures Meets(m, Run(pc, i, st), if TestHolds(test, m.subject, i) then None else Some(i), opt, fl,
                  pc + |NotByTestCode(test)|, st)
  {
    hide Machine.Reaches;
    var a := Run(pc, i, st);
    var d := TestLen(test) + 1;
    AtSplit(m.code, pc, TestCode(test, d), Simple(IFail, 0));
    RunTest(m, test, d, pc, i, st);
    if TestHolds(test, m.subject, i) {
      RunFail(m, pc + TestLen(test), i, st);
      m.Trans(a, Run(pc + TestLen(test), i, st), Backtrack(st));
    } else {
      MeetsArrive(m, a, i, opt, fl, pc + d, st);
    }
  }

  lemma NotAt(code: seq<Slot>, pc: int, test: Test, c: seq<Slot>)
    requires At(code, pc, NotCode(test, c))
    ensures At(code, pc, TestCode(test, TestLen(test) + |c| + 3))
    ensures At(code, pc + TestLen(test), Labelled(IChoice, |c| + 3))
    ensures At(code, pc + TestLen(test) + 2, c)
    ensures At(code, pc + TestLen(test) + 2 + |c|, Simple(IFailTwice, 0))
  {
    hide At, TestCode, TestLen, Labelled, Simple;
    AtSplit4(code, pc, TestCode(test, TestLen(test) + |c| + 3), Labelled(IChoice, |c| + 3), c, Simple(IFailTwice, 0));
  }

  lemma NotRuns(m: Machine, test: Test, c: seq<Slot>, opt: bool, fl: Charset, pc: int, i: nat,
                st: seq<Entry>, r: Option<nat>)
    requires At(m.code, pc, NotCode(test, c))
    requires i <= |m.subject| && |st| < m.limit && (opt ==> st != [])
    requires r.Some? ==> r.value <= |m.subject|
    requires var pc1 := pc + TestLen(test) + 2;
      var st1 := Push(st, pc1 + |c| + 1, i);
      TestHolds(test, m.subject, i) ==> Meets(m, Run(pc1, i, st1), r, false, Full, pc1 + |c|, st1)
    requires !TestHolds(test, m.subject, i) ==> r.None?
    ensures Meets(m, Run(pc, i, st), if r.Some? then None else Some(i), opt, fl, pc + |NotCode(test, c)|, st)
  {
    hide Machine.Reaches, Meets, At, TestCode, TestLen, Labelled, Simple, NotCode, TestHolds, Push, Pop, Top;
    var a := Run(pc, i, st);
    var d := TestLen(test) + |c| + 3;
    var pc0 := pc + TestLen(test);
    NotAt(m.code, pc, test, c);
    RunTest(m, test, d, pc, i, st);
    if TestHolds(test, m.subject, i) {
      RunChoice(m, |c| + 3, pc0, i, st);
      var st1 := Push(st, pc + d, i);
      PopPush(st, pc + d, i);
      m.Trans(a, Run(pc0, i, st), Run(pc0 + 2, i, st1));
      MeetsAfter(m, a, Run(pc0 + 2, i, st1), r, false, Full, pc0 + 2 + |c|, st1);
      MeetsExact(m, a, r, pc0 + 2 + |c|, st1);
      if r.Some? {
        RunFailTwice(m, pc0 + 2 + |c|, r.value, st1);
        m.Trans(a, Run(pc0 + 2 + |c|, r.value, st1), Backtrack(st));
        MeetsFail(m, a, opt, fl, pc + d, st);
      } else {
        MeetsArrive(m, a, i, opt, fl, pc + d, st);
      }
    } else {
      MeetsArrive(m, a, i, opt, fl, pc + d, st);
    }
  }

  lemma AndRuns(m: Machine, c: seq<Slot>, opt: bool, fl: Charset, pc: int, i: nat, st: seq<Entry>, r: Option<nat>)
    requires At(m.code, pc, AndCode(c))
    requires i <= |m.subject| && |st| < m.limit && (opt ==> st != [])
    requires r.Some? ==> r.value <= |m.subject|
    requires var st1 := Push(st, pc + |c| + 4, i);
      Meets(m, Run(pc + 2, i, st1), r, false, Full, pc + 2 + |c|, st1)
    ensures Meets(m, Run(pc, i, st), if r.Some? then Some(i) else None, opt, fl, pc + |AndCode(c)|, st)
  {
    hide Machine.Reaches;
    var a := Run(pc, i, st);
    AtSplit4(m.code, pc, Labelled(IChoice, |c| + 4), c, Labelled(IBackCommit, 3), Simple(IFail, 0));
    var l1 := pc + |c| + 4;
    var st1 := Push(st, l1, i);
    assert Pop(st1) == st;
    RunChoice(m, |c| + 4, pc, i, st);
    MeetsAfter(m, a, Run(pc + 2, i, st1), r, false, Full, pc + 2 + |c|, st1);
    MeetsExact(m, a, r, pc + 2 + |c|, st1);
    if r.Some? {
      RunBackCommit(m, 3, pc + 2 + |c|, r.value, st1);
      m.Trans(a, Run(pc + 2 + |c|, r.value, st1), Run(l1 + 1, i, st));
      MeetsArrive(m, a, i, opt, fl, l1 + 1, st);
    } else {
      RunFail(m, l1, i, st);
      m.Trans(a, Run(l1, i, st), Backtrack(st));
    }
  }

  /** Code followed by a step back over the fixed length it matched. */
  lemma AndByBehindRuns(m: Machine, c: seq<Slot>, n: nat, opt: bool, fl: Charset, pc: int, i: nat,
                        st: seq<Entry>, r: Option<nat>)
    requires At(m.code, pc, c + CodeBehind(n)) && n < 256
    requires i <= |m.subject| && (opt ==> st != [])
    requires r.Some? ==> r.value == i + n <= |m.subject|
    requires Meets(m, Run(pc, i, st), r, false, Full, pc + |c|, st)
    ensures Meets(m, Run(pc, i, st), if r.Some? then Some(i) else None, opt, fl, pc + |c + CodeBehind(n)|, st)
  {
    hide Machine.Reaches;
    var a := Run(pc, i, st);
    AtSplit(m.code, pc, c, CodeBehind(n));
    MeetsExact(m, a, r, pc + |c|, st);
    if r.Some? {
      RunBehind(m, n, pc + |c|, r.value, st);
      m.Trans(a, Run(pc + |c|, r.value, st), Run(pc + |c + CodeBehind(n)|, i, st));
      MeetsArrive(m, a, i, opt, fl, pc + |c + CodeBehind(n)|, st);
    }
  }

  lemma BehindRuns(m: Machine, c: seq<Slot>, n: nat, opt: bool, fl: Charset, pc: int, i: nat,
                   st: seq<Entry>, r: Option<nat>)
    requires At(m.code, pc, CodeBehind(n) + c) && n < 256
    requires i <= |m.subject| && (opt ==> st != [])
    requires n <= i ==> Meets(m, Run(pc + |CodeBehind(n)|, i - n, st), r, false, Full, pc + |CodeBehind(n)| + |c|, st)
    requires n <= i && r.Some? ==> r.value == i
    ensures Meets(m, Run(pc, i, st), if n <= i && r.Some? then Some(i) else None, opt, fl,
                  pc + |CodeBehind(n) + c|, st)
  {
    hide Machine.Reaches;
    var a := Run(pc, i, st);
    AtSplit(m.code, pc, CodeBehind(n), c);
    RunBehind(m, n, pc, i, st);
    if n <= i {
      var pc1 := pc + |CodeBehind(n)|;
      MeetsAfter(m, a, Run(pc1, i - n, st), r, false, Full, pc1 + |c|, st);
      MeetsExact(m, a, r, pc1 + |c|, st);
      if r.Some? { MeetsArrive(m, a, i, opt, fl, pc1 + |c|, st); }
    }
  }
}
