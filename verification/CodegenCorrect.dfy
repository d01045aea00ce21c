/** The generated code does what the pattern means, relative to its follow set. */
module CodegenCorrect {
  import opened Common
  import opened Peg
  import opened Analysis
  import opened Vm
  import opened Codegen
  import opened Fragments

  /** The code of `t` sits at `pc`, the test that protects it has passed, and the stack has room. */
  ghost predicate Ready(m: Machine, t: Tree, opt: bool, tt: Test, fl: Charset, pc: int, i: nat, st: seq<Entry>) {
    && WellFormed(t)
    && At(m.code, pc, Gen(t, opt, tt, fl))
    && i <= |m.subject|
    && TestHolds(tt, m.subject, i)
    && (opt ==> fl == Full && st != [])
    && |st| + StackNeed(t) <= m.limit
  }

  ghost predicate Correct(m: Machine, t: Tree, opt: bool, tt: Test, fl: Charset, pc: int, i: nat, st: seq<Entry>)
    requires i <= |m.subject|
  {
    Meets(m, Run(pc, i, st), Match(t, m.subject, i), opt, fl, pc + |Gen(t, opt, tt, fl)|, st)
  }

  /** Running the code of a pattern agrees with its PEG meaning, up to failures that the
      follow set allows and up to the reuse of an enclosing choice entry. */
  lemma {:induction false} GenCorrect(m: Machine, t: Tree, opt: bool, tt: Test, fl: Charset, pc: int, i: nat,
                                      st: seq<Entry>)
    requires Ready(m, t, opt, tt, fl, pc, i, st)
    ensures Correct(m, t, opt, tt, fl, pc, i, st)
    decreases t, 1
  {
    hide Machine.Reaches;
    match t
    case TChar(c) => SingleCorrect(m, t, {c}, opt, tt, fl, pc, i, st);
    case TAny => SingleCorrect(m, t, Full, opt, tt, fl, pc, i, st);
    case TSet(cs) => SingleCorrect(m, t, cs, opt, tt, fl, pc, i, st);
    case TTrue =>
      m.Refl(Run(pc, i, st));
      MeetsArrive(m, Run(pc, i, st), i, opt, fl, pc, st);
    case TFalse =>
      RunFail(m, pc, i, st);
    case TSeq(p1, p2) => SeqCorrect(m, p1, p2, opt, tt, fl, pc, i, st);
    case TChoice(p1, p2) =>
      if ChoiceByTest(p1, p2, fl) {
        ChoiceByTestCorrect(m, p1, p2, opt, tt, fl, pc, i, st);
      } else if opt && p2.TTrue? {
        OptionalCorrect(m, p1, tt, fl, pc, i, st);
      } else {
        ChoiceCorrect(m, p1, p2, opt, tt, fl, pc, i, st);
      }
    case TRep(p) =>
      if ToCharset(p).Some? {
        SpanIsRep(p, ToCharset(p).value, m.subject, i);
        SpanRuns(m, ToCharset(p).value, opt, fl, pc, i, st);
      } else if RepByTest(p, fl) {
        RepByTestCorrect(m, p, opt, tt, fl, pc, i, st);
      } else {
        RepCorrect(m, p, opt, tt, fl, pc, i, st);
      }
    case TNot(p) => NotCorrect(m, p, opt, tt, fl, pc, i, st);
    case TAnd(p) => AndCorrect(m, p, opt, tt, fl, pc, i, st);
    case TBehind(p, n) => BehindCorrect(m, p, n, opt, tt, fl, pc, i, st);
  }

  lemma SingleCorrect(m: Machine, t: Tree, cs: Charset, opt: bool, tt: Test, fl: Charset, pc: int, i: nat,
                      st: seq<Entry>)
    requires ToCharset(t) == Some(cs)
    requires Ready(m, t, opt, tt, fl, pc, i, st)
    ensures Correct(m, t, opt, tt, fl, pc, i, st)
  {
    hide Machine.Reaches, Meets, At, OneCharCode, TestHolds;
    var g := Gen(t, opt, tt, fl);
    SingleCode(t, cs, opt, tt, fl);
    OneCharRuns(m, g, cs, opt, tt, fl, pc, i, st);
  }

  lemma SingleCode(t: Tree, cs: Charset, opt: bool, tt: Test, fl: Charset)
    requires ToCharset(t) == Some(cs)
    ensures OneCharCode(Gen(t, opt, tt, fl), cs, tt)
  {
  }

  lemma SeqReady(m: Machine, p1: Tree, p2: Tree, opt: bool, tt: Test, fl: Charset, pc: int, i: nat, st: seq<Entry>)
    requires Ready(m, TSeq(p1, p2), opt, tt, fl, pc, i, st)
    ensures var fl1, tt2 := FollowIn(p1, p2, fl), TestAfter(p1, tt);
      var c1, c2 := Gen(p1, false, tt, fl1), Gen(p2, opt, tt2, fl);
      var r := Match(p1, m.subject, i);
      && Gen(TSeq(p1, p2), opt, tt, fl) == c1 + c2
      && Ready(m, p1, false, tt, fl1, pc, i, st)
      && (r.Some? ==> Ready(m, p2, opt, tt2, fl, pc + |c1|, r.value, st))
      && Match(TSeq(p1, p2), m.subject, i) == if r.None? then None else Match(p2, m.subject, r.value)
  {
    hide At, Machine.Reaches, FollowIn, GetFirst, TestHolds, TestAfter, Gen;
    GenSeq(p1, p2, opt, tt, fl);
    var fl1, tt2 := FollowIn(p1, p2, fl), TestAfter(p1, tt);
    AtSplit(m.code, pc, Gen(p1, false, tt, fl1), Gen(p2, opt, tt2, fl));
    if Match(p1, m.subject, i).Some? { TestAfterHolds(p1, tt, m.subject, i); }
  }

  lemma SeqCorrect(m: Machine, p1: Tree, p2: Tree, opt: bool, tt: Test, fl: Charset, pc: int, i: nat, st: seq<Entry>)
    requires Ready(m, TSeq(p1, p2), opt, tt, fl, pc, i, st)
    ensures Correct(m, TSeq(p1, p2), opt, tt, fl, pc, i, st)
    decreases TSeq(p1, p2), 0
  {
    hide Machine.Reaches, Meets, At, WellFormed, StackNeed, TestHolds, FollowIn, TestAfter, Gen, Match;
    var s := m.subject;
    var a := Run(pc, i, st);
    var fl1, tt2 := FollowIn(p1, p2, fl), TestAfter(p1, tt);
    var c1, c2 := Gen(p1, false, tt, fl1), Gen(p2, opt, tt2, fl);
    SeqReady(m, p1, p2, opt, tt, fl, pc, i, st);
    GenCorrect(m, p1, false, tt, fl1, pc, i, st);
    var r := Match(p1, s, i);
    if r.Some? {
      var j := r.value;
      MeetsPlain(m, a, j, fl1, pc + |c1|, st);
      var b := Run(pc + |c1|, j, st);
      if m.Reaches(a, b) {
        GenCorrect(m, p2, opt, tt2, fl, pc + |c1|, j, st);
        MeetsAfter(m, a, b, Match(p2, s, j), opt, fl, pc + |c1| + |c2|, st);
      } else {
        // the code of p1 gave up early: p2 cannot start with the next character
        EarlyIsHarmless(p1, p2, fl, s, j);
        if Match(p2, s, j).Some? { MeetsEarly(m, a, j, opt, fl, pc + |c1| + |c2|, st); }
        else { MeetsFail(m, a, opt, fl, pc + |c1| + |c2|, st); }
      }
    } else {
      MeetsFail(m, a, false, fl1, pc + |c1|, st);
      MeetsFail(m, a, opt, fl, pc + |c1| + |c2|, st);
    }
  }

  /** A test still protects what follows a pattern that consumes nothing. */
  lemma TestAfterHolds(p1: Tree, tt: Test, s: Subject, i: nat)
    requires i <= |s| && Match(p1, s, i).Some? && TestHolds(tt, s, i)
    ensures TestHolds(TestAfter(p1, tt), s, Match(p1, s, i).value)
  {
    if FixedLen(p1) == 0 { FixedLenSound(p1, s, i); }
  }

  lemma EarlyIsHarmless(p1: Tree, p2: Tree, fl: Charset, s: Subject, j: nat)
    requires j <= |s| && InSet(Full - FollowIn(p1, p2, fl), s, j)
    ensures Match(p2, s, j).Some? ==> Match(p2, s, j).value == j && InSet(Full - fl, s, j)
  {
    FirstSound(p2, fl, s, j);
  }

  /** A refused first character, or the end of the subject, makes the pattern fail. */
  lemma RefusedFails(t: Tree, s: Subject, i: nat)
    requires i <= |s| && !GetFirst(t, Full).e && !InSet(GetFirst(t, Full).cs, s, i)
    ensures Match(t, s, i).None?
  {
    if i == |s| {
      EmptySound(t, Full, s);
    } else {
      FirstSound(t, Full, s, i);
    }
  }

  /** The test emitted for the first set refuses only where the pattern fails. */
  lemma TestRefuses(t: Tree, e: bool, s: Subject, i: nat)
    requires i <= |s| && (GetFirst(t, Full).e ==> e)
    ensures !TestHolds(TestFor(GetFirst(t, Full).cs, e), s, i) ==> Match(t, s, i).None?
  {
    var f := GetFirst(t, Full);
    TestForSet(f.cs, e);
    if !TestHolds(TestFor(f.cs, e), s, i) { RefusedFails(t, s, i); }
  }

  lemma Apart(a: Charset, b: Charset, x: Byte)
    requires Disjoint(a, b) && x in a
    ensures x !in b
  {
    assert x in b ==> x in a * b;
  }

  /** Why an alternative may be chosen by its first character. */
  lemma ChoiceByTestSound(p1: Tree, p2: Tree, fl: Charset, s: Subject, i: nat)
    requires i <= |s| && ChoiceByTest(p1, p2, fl)
    ensures var ok := TestHolds(TestFor(GetFirst(p1, Full).cs, false), s, i);
      && (!ok ==> Match(p1, s, i).None?)
      && (ok && Match(p1, s, i).None? && Match(p2, s, i).Some? ==> InSet(Full - fl, s, Match(p2, s, i).value))
  {
    if HeadFail(p1) { HeadFailSound(p1, s, i); }
    TestRefuses(p1, false, s, i);
    TestForSet(GetFirst(p1, Full).cs, false);
    if InSet(GetFirst(p1, Full).cs, s, i) && !HeadFail(p1) {
      Apart(GetFirst(p1, Full).cs, GetFirst(p2, fl).cs, s[i]);
      FirstSound(p2, fl, s, i);
    }
  }

  lemma ChoiceByTestReady(m: Machine, p1: Tree, p2: Tree, opt: bool, tt: Test, fl: Charset, pc: int, i: nat,
                          st: seq<Entry>)
    requires Ready(m, TChoice(p1, p2), opt, tt, fl, pc, i, st)
    requires ChoiceByTest(p1, p2, fl)
    ensures var test := TestFor(GetFirst(p1, Full).cs, false);
      var c1, c2 := Gen(p1, false, test, fl), Gen(p2, opt, NoTest, fl);
      var jump := !p2.TTrue?;
      && Gen(TChoice(p1, p2), opt, tt, fl) == ChoiceByTestCode(test, c1, jump, c2)
      && (TestHolds(test, m.subject, i) ==> Ready(m, p1, false, test, fl, pc + TestLen(test), i, st))
      && Ready(m, p2, opt, NoTest, fl, pc + TestLen(test) + |c1| + (if jump then 2 else 0), i, st)
      && (!jump ==> c2 == [])
  {
    hide At, ChoiceByTest, TestFor, TestHolds, ChoiceByTestCode, GetFirst, TestLen, TestSet, Gen, WellFormed, StackNeed;
    var test := TestFor(GetFirst(p1, Full).cs, false);
    ChoiceParts(m, p1, p2, opt, tt, fl, pc, i, st);
    GenChoice(p1, p2, opt, tt, fl);
    ChoiceByTestAt(m.code, pc, test, Gen(p1, false, test, fl), !p2.TTrue?, Gen(p2, opt, NoTest, fl));
    NoTestHolds(m.subject, i);
    GenEmpty(opt, fl);
  }

  lemma GenEmpty(opt: bool, fl: Charset)
    ensures Gen(TTrue, opt, NoTest, fl) == []
  {
  }

  /** What is known of the two alternatives. */
  lemma ChoiceParts(m: Machine, p1: Tree, p2: Tree, opt: bool, tt: Test, fl: Charset, pc: int, i: nat, st: seq<Entry>)
    requires Ready(m, TChoice(p1, p2), opt, tt, fl, pc, i, st)
    ensures WellFormed(p1) && WellFormed(p2) && i <= |m.subject|
    ensures |st| + 1 + StackNeed(p1) <= m.limit && |st| + StackNeed(p2) <= m.limit
    ensures opt ==> fl == Full && st != []
    ensures At(m.code, pc, Gen(TChoice(p1, p2), opt, tt, fl))
    ensures
      var r := Match(p1, m.subject, i);
      Match(TChoice(p1, p2), m.subject, i) == if r.Some? then r else Match(p2, m.subject, i)
  {
    hide At, Gen, TestHolds;
  }

  lemma ChoiceByTestCorrect(m: Machine, p1: Tree, p2: Tree, opt: bool, tt: Test, fl: Charset, pc: int, i: nat,
                            st: seq<Entry>)
    requires Ready(m, TChoice(p1, p2), opt, tt, fl, pc, i, st)
    requires ChoiceByTest(p1, p2, fl)
    ensures Correct(m, TChoice(p1, p2), opt, tt, fl, pc, i, st)
    decreases TChoice(p1, p2), 0
  {
    hide Machine.Reaches, Meets, At, ChoiceByTest, TestFor, TestHolds, ChoiceByTestCode, GetFirst, TestLen,
         Gen, StackNeed, WellFormed, Match, Ready;
    ReadyPos(m, TChoice(p1, p2), opt, tt, fl, pc, i, st);
    ChoiceParts(m, p1, p2, opt, tt, fl, pc, i, st);
    var s := m.subject;
    var test := TestFor(GetFirst(p1, Full).cs, false);
    var c1, c2 := Gen(p1, false, test, fl), Gen(p2, opt, NoTest, fl);
    var jump := !p2.TTrue?;
    ChoiceByTestReady(m, p1, p2, opt, tt, fl, pc, i, st);
    ChoiceByTestSound(p1, p2, fl, s, i);
    if TestHolds(test, s, i) {
      GenCorrect(m, p1, false, test, fl, pc + TestLen(test), i, st);
    } else {
      GenCorrect(m, p2, opt, NoTest, fl, pc + TestLen(test) + |c1| + (if jump then 2 else 0), i, st);
    }
    ChoiceByTestRuns(m, test, c1, jump, c2, opt, fl, pc, i, st, Match(p1, s, i), Match(p2, s, i));
  }

  lemma NoTestHolds(s: Subject, i: nat)
    ensures TestHolds(NoTest, s, i)
  {
  }

  lemma OptionalCorrect(m: Machine, p1: Tree, tt: Test, fl: Charset, pc: int, i: nat, st: seq<Entry>)
    requires Ready(m, TChoice(p1, TTrue), true, tt, fl, pc, i, st)
    requires !ChoiceByTest(p1, TTrue, fl)
    ensures Correct(m, TChoice(p1, TTrue), true, tt, fl, pc, i, st)
    decreases TChoice(p1, TTrue), 0
  {
    hide Machine.Reaches, Meets, At, ChoiceByTest, TestFor, GetFirst, TestLen, Push, Pop, Top, Gen, Match, WellFormed,
      StackNeed, OptionalCode, TestHolds, Ready;
    ChoiceParts(m, p1, TTrue, true, tt, fl, pc, i, st);
    var c := Gen(p1, true, NoTest, Full);
    GenChoice(p1, TTrue, true, tt, fl);
    OptionalAt(m.code, pc, c);
    var st1 := Push(Pop(st), Top(st).pc, i);
    PopPush(Pop(st), Top(st).pc, i);
    LoopStack(m, p1, i, st);
    PartReady(m, p1, true, pc + 2, i, st1);
    GenCorrect(m, p1, true, NoTest, Full, pc + 2, i, st1);
    OptionalRuns(m, c, pc, i, st, Match(p1, m.subject, i));
    TrueMatch(m.subject, i);
  }

  lemma TrueMatch(s: Subject, i: nat)
    requires i <= |s|
    ensures Match(TTrue, s, i) == Some(i)
  {
  }

  lemma OptionalAt(code: seq<Slot>, pc: int, c: seq<Slot>)
    requires At(code, pc, OptionalCode(c))
    ensures At(code, pc + 2, c)
  {
    hide At, Labelled;
    AtSplit(code, pc, Labelled(IPartialCommit, 2), c);
  }

  lemma PartReady(m: Machine, p: Tree, opt: bool, pc: int, i: nat, st: seq<Entry>)
    requires WellFormed(p) && |st| + StackNeed(p) <= m.limit && i <= |m.subject| && st != []
    requires At(m.code, pc, Gen(p, opt, NoTest, Full))
    ensures Ready(m, p, opt, NoTest, Full, pc, i, st)
  {
    hide At, Gen, WellFormed, StackNeed;
    NoTestHolds(m.subject, i);
  }

  lemma ChoiceReady(m: Machine, p1: Tree, p2: Tree, opt: bool, tt: Test, fl: Charset, pc: int, i: nat, st: seq<Entry>)
    requires Ready(m, TChoice(p1, p2), opt, tt, fl, pc, i, st)
    requires !ChoiceByTest(p1, p2, fl) && !(opt && p2.TTrue?)
    ensures var f1 := GetFirst(p1, Full);
      var test := TestFor(f1.cs, f1.e);
      var c1, c2 := Gen(p1, p2.TTrue?, test, Full), Gen(p2, opt, NoTest, fl);
      var l1 := pc + TestLen(test) + |c1| + 4;
      && Gen(TChoice(p1, p2), opt, tt, fl) == ChoiceCode(test, c1, c2)
      && (TestHolds(test, m.subject, i) ==>
            Ready(m, p1, p2.TTrue?, test, Full, pc + TestLen(test) + 2, i, Push(st, l1, i)))
      && Ready(m, p2, opt, NoTest, fl, l1, i, st)
      && (p2.TTrue? ==> c2 == [])
      && |st| < m.limit
  {
    hide At, ChoiceByTest, TestFor, TestHolds, ChoiceCode, GetFirst, TestLen, TestSet, Push, Gen, WellFormed, StackNeed;
    ChoiceParts(m, p1, p2, opt, tt, fl, pc, i, st);
    GenChoice(p1, p2, opt, tt, fl);
    NoTestHolds(m.subject, i);
    GenEmpty(opt, fl);
    var f1 := GetFirst(p1, Full);
    var test := TestFor(f1.cs, f1.e);
    var c1, c2 := Gen(p1, p2.TTrue?, test, Full), Gen(p2, opt, NoTest, fl);
    ChoiceAt(m.code, pc, test, c1, c2);
    PopPush(st, pc + TestLen(test) + |c1| + 4, i);
  }

  lemma ChoiceCorrect(m: Machine, p1: Tree, p2: Tree, opt: bool, tt: Test, fl: Charset, pc: int, i: nat, st: seq<Entry>)
    requires Ready(m, TChoice(p1, p2), opt, tt, fl, pc, i, st)
    requires !ChoiceByTest(p1, p2, fl) && !(opt && p2.TTrue?)
    ensures Correct(m, TChoice(p1, p2), opt, tt, fl, pc, i, st)
    decreases TChoice(p1, p2), 0
  {
    hide Machine.Reaches, Meets, At, ChoiceByTest, TestFor, TestHolds, ChoiceCode, GetFirst, TestLen, Push,
         Gen, StackNeed, WellFormed, Match, Ready;
    ReadyPos(m, TChoice(p1, p2), opt, tt, fl, pc, i, st);
    ChoiceParts(m, p1, p2, opt, tt, fl, pc, i, st);
    var s := m.subject;
    var f1 := GetFirst(p1, Full);
    var test := TestFor(f1.cs, f1.e);
    var c1, c2 := Gen(p1, p2.TTrue?, test, Full), Gen(p2, opt, NoTest, fl);
    var l1 := pc + TestLen(test) + |c1| + 4;
    ChoiceReady(m, p1, p2, opt, tt, fl, pc, i, st);
    TestRefuses(p1, f1.e, s, i);
    if TestHolds(test, s, i) {
      GenCorrect(m, p1, p2.TTrue?, test, Full, pc + TestLen(test) + 2, i, Push(st, l1, i));
    }
    GenCorrect(m, p2, opt, NoTest, fl, l1, i, st);
    ChoiceRuns(m, test, c1, p2.TTrue?, c2, opt, fl, pc, i, st, Match(p1, s, i), Match(p2, s, i));
  }

  /** `ISpan` runs a repeated character pattern in one instruction. */
  lemma {:induction false} SpanIsRep(p: Tree, cs: Charset, s: Subject, i: nat)
    requires i <= |s| && ToCharset(p) == Some(cs)
    ensures Match(TRep(p), s, i) == Some(Span(cs, s, i))
    decreases |s| - i
  {
    if InSet(cs, s, i) { SpanIsRep(p, cs, s, i + 1); }
  }

  /** Why the body of a loop may be entered by its first character. */
  lemma RepByTestSound(p: Tree, fl: Charset, s: Subject, i: nat)
    requires i <= |s| && RepByTest(p, fl)
    ensures var ok := TestHolds(TestFor(GetFirst(p, Full).cs, false), s, i);
      && (!ok ==> Match(p, s, i).None?)
      && (ok && Match(p, s, i).None? ==> InSet(Full - fl, s, i))
  {
    hide GetFirst, TestFor, TestHolds, HeadFail, Match;
    if HeadFail(p) {
      HeadFailSound(p, s, i);
      TestRefuses(p, false, s, i);
      HeadFailTest(p, s, i);
    } else {
      TestRefuses(p, false, s, i);
      if InSet(GetFirst(p, Full).cs, s, i) { Apart(GetFirst(p, Full).cs, fl, s[i]); }
      TestIsSet(GetFirst(p, Full).cs, s, i);
    }
  }

  /** A test that is emitted for a set holds at the characters of the set. */
  lemma TestIsSet(cs: Charset, s: Subject, i: nat)
    ensures TestHolds(TestFor(cs, false), s, i) <==> InSet(cs, s, i)
  {
    TestForSet(cs, false);
  }

  lemma RepReady(m: Machine, p: Tree, opt: bool, tt: Test, fl: Charset, pc: int, i: nat, st: seq<Entry>)
    requires Ready(m, TRep(p), opt, tt, fl, pc, i, st)
    ensures WellFormed(p) && !Nullable(p) && |st| + StackNeed(p) <= m.limit && (opt ==> st != [])
    ensures At(m.code, pc, Gen(TRep(p), opt, tt, fl))
    ensures
      var r := Match(p, m.subject, i);
      r.Some? ==> r.value > i && Match(TRep(p), m.subject, i) == Match(TRep(p), m.subject, r.value)
    ensures Match(p, m.subject, i).None? ==> Match(TRep(p), m.subject, i) == Some(i)
  {
    hide At, Gen, TestHolds;
    NullableSound(p, m.subject, i);
  }

  /** The loop may be entered again further on. */
  lemma AgainReady(m: Machine, p: Tree, opt: bool, tt: Test, fl: Charset, pc: int, i: nat, j: nat, st: seq<Entry>)
    requires Ready(m, TRep(p), opt, tt, fl, pc, i, st) && j <= |m.subject|
    requires Gen(TRep(p), opt, tt, fl) == Gen(TRep(p), opt, NoTest, fl)
    ensures Ready(m, TRep(p), opt, NoTest, fl, pc, j, st)
  {
    hide At, Gen, WellFormed, StackNeed;
  }

  lemma RepByTestCorrect(m: Machine, p: Tree, opt: bool, tt: Test, fl: Charset, pc: int, i: nat, st: seq<Entry>)
    requires Ready(m, TRep(p), opt, tt, fl, pc, i, st)
    requires ToCharset(p).None? && RepByTest(p, fl)
    ensures Correct(m, TRep(p), opt, tt, fl, pc, i, st)
    decreases TRep(p), 0, |m.subject| - i
  {
    hide Machine.Reaches, Meets, At, RepByTest, TestFor, TestHolds, RepByTestCode, GetFirst, TestLen, Gen, Match,
      WellFormed, StackNeed, Ready, Nullable, ToCharset;
    ReadyPos(m, TRep(p), opt, tt, fl, pc, i, st);
    RepReady(m, p, opt, tt, fl, pc, i, st);
    GenRep(p, opt, tt, fl);
    GenRep(p, opt, NoTest, fl);
    var s := m.subject;
    var test := TestFor(GetFirst(p, Full).cs, false);
    var c := Gen(p, false, test, Full);
    RepByTestSound(p, fl, s, i);
    RepByTestAt(m.code, pc, test, c);
    var r := Match(p, s, i);
    if TestHolds(test, s, i) {
      BodyReady(m, p, test, pc + TestLen(test), i, st);
      GenCorrect(m, p, false, test, Full, pc + TestLen(test), i, st);
    }
    var rest: Option<nat> := None;
    if r.Some? {
      AgainReady(m, p, opt, tt, fl, pc, i, r.value, st);
      RepByTestCorrect(m, p, opt, NoTest, fl, pc, r.value, st);
      rest := Match(TRep(p), s, r.value);
    }
    RepByTestRuns(m, test, c, opt, fl, pc, i, st, r, rest);
  }

  lemma RepCorrect(m: Machine, p: Tree, opt: bool, tt: Test, fl: Charset, pc: int, i: nat, st: seq<Entry>)
    requires Ready(m, TRep(p), opt, tt, fl, pc, i, st)
    requires ToCharset(p).None? && !RepByTest(p, fl)
    ensures Correct(m, TRep(p), opt, tt, fl, pc, i, st)
    decreases TRep(p), 0
  {
    hide Machine.Reaches, Meets, At, RepByTest, TestFor, TestHolds, RepCode, GetFirst, TestLen, Push, Top, Pop, Gen,
      Match, WellFormed, StackNeed, Ready, ToCharset, EntryFor, NoFail;
    ReadyPos(m, TRep(p), opt, tt, fl, pc, i, st);
    ReadyStack(m, p, opt, tt, fl, pc, i, st);
    RepReady(m, p, opt, tt, fl, pc, i, st);
    var s := m.subject;
    var f := GetFirst(p, Full);
    var test := TestFor(f.cs, f.e);
    var c := Gen(p, false, NoTest, Full);
    GenRep(p, opt, tt, fl);
    TestRefuses(p, f.e, s, i);
    RepAt(m.code, pc, test, opt, c);
    RepNeverFails(p, s, i);
    var l1 := pc + TestLen(test) + 2;
    if TestHolds(test, s, i) {
      RepBodyCorrect(m, p, l1, i, EntryFor(opt, st, l1 + |c| + 2, i));
    }
    RepRuns(m, test, c, opt, fl, pc, i, st, Match(TRep(p), s, i).value);
  }

  lemma ReadyStack(m: Machine, p: Tree, opt: bool, tt: Test, fl: Charset, pc: int, i: nat, st: seq<Entry>)
    requires Ready(m, TRep(p), opt, tt, fl, pc, i, st)
    ensures WellFormed(TRep(p)) && |st| + 1 + StackNeed(p) <= m.limit && (opt ==> fl == Full && st != [])
  {
    hide At, Gen, TestHolds;
  }

  lemma RepNeverFails(p: Tree, s: Subject, i: nat)
    requires i <= |s|
    ensures Match(TRep(p), s, i).Some?
  {
    NoFailSound(TRep(p), s, i);
  }

  /** The stack with which a loop runs: its own entry, or the enclosing one reused. */
  function EntryFor(opt: bool, st: seq<Entry>, lab: int, i: nat): (r: seq<Entry>)
    requires opt ==> st != []
    ensures r == if opt then Push(Pop(st), Top(st).pc, i) else Push(st, lab, i)
    ensures r != [] && Top(r).pos == i && |r| <= |st| + 1
  {
    if opt then Push(Pop(st), Top(st).pc, i) else Push(st, lab, i)
  }

  /** From the top of the loop, with the current position saved in the top entry, the
      machine ends up resuming through that entry where the repetition ends. */
  lemma RepBodyCorrect(m: Machine, p: Tree, pc: int, i: nat, st: seq<Entry>)
    requires WellFormed(TRep(p)) && i <= |m.subject|
    requires var c := Gen(p, false, NoTest, Full);
             At(m.code, pc, c) && At(m.code, pc + |c|, Labelled(IPartialCommit, -|c|))
    requires st != [] && Top(st).pos == i && |st| + StackNeed(p) <= m.limit
    ensures Match(TRep(p), m.subject, i).Some?
    ensures m.Reaches(Run(pc, i, st), Run(Top(st).pc, Match(TRep(p), m.subject, i).value, Pop(st)))
    decreases p, 2, |m.subject| - i
  {
    hide Machine.Reaches, Meets, At, Push, Pop, Top, Gen, Match, WellFormed, StackNeed, Ready;
    var s := m.subject;
    var c := Gen(p, false, NoTest, Full);
    LoopParts(p, s, i);
    LoopStack(m, p, i, st);
    BodyReady(m, p, NoTest, pc, i, st);
    GenCorrect(m, p, false, NoTest, Full, pc, i, st);
    var r := Match(p, s, i);
    var j := i;
    if r.Some? {
      var st1 := Push(Pop(st), Top(st).pc, r.value);
      PopPush(Pop(st), Top(st).pc, r.value);
      RepBodyCorrect(m, p, pc, r.value, st1);
      j := Match(TRep(p), s, r.value).value;
    }
    RepBodyRuns(m, c, pc, i, st, r, j);
  }

  lemma LoopParts(p: Tree, s: Subject, i: nat)
    requires WellFormed(TRep(p)) && i <= |s|
    ensures WellFormed(p)
    ensures
      var r := Match(p, s, i);
      r.Some? ==> r.value > i && Match(TRep(p), s, i) == Match(TRep(p), s, r.value)
    ensures Match(p, s, i).None? ==> Match(TRep(p), s, i) == Some(i)
  {
    NullableSound(p, s, i);
  }

  lemma LoopStack(m: Machine, p: Tree, i: nat, st: seq<Entry>)
    requires st != []
    ensures |Pop(st)| + 1 == |st|
  {
  }

  /** What is known of the body of a predicate. */
  lemma NotReady(m: Machine, p: Tree, opt: bool, tt: Test, fl: Charset, pc: int, i: nat, st: seq<Entry>)
    requires Ready(m, TNot(p), opt, tt, fl, pc, i, st)
    ensures WellFormed(p) && |st| + 1 + StackNeed(p) <= m.limit && (opt ==> st != [])
    ensures At(m.code, pc, Gen(TNot(p), opt, tt, fl))
    ensures Match(TNot(p), m.subject, i) == if Match(p, m.subject, i).Some? then None else Some(i)
  {
    hide At, Gen, TestHolds;
  }

  lemma NotByTestCorrect(m: Machine, p: Tree, opt: bool, tt: Test, fl: Charset, pc: int, i: nat, st: seq<Entry>)
    requires Ready(m, TNot(p), opt, tt, fl, pc, i, st) && HeadFail(p)
    ensures Correct(m, TNot(p), opt, tt, fl, pc, i, st)
  {
    hide Machine.Reaches, Meets, At, TestFor, TestHolds, NotByTestCode, NotCode, GetFirst, TestLen, Gen, Match, Ready;
    var test := TestFor(GetFirst(p, Full).cs, GetFirst(p, Full).e);
    ReadyPos(m, TNot(p), opt, tt, fl, pc, i, st);
    NotReady(m, p, opt, tt, fl, pc, i, st);
    GenNot(p, opt, tt, fl);
    HeadFailTest(p, m.subject, i);
    NotByTestRuns(m, test, opt, fl, pc, i, st);
  }

  lemma ReadyPos(m: Machine, t: Tree, opt: bool, tt: Test, fl: Charset, pc: int, i: nat, st: seq<Entry>)
    requires Ready(m, t, opt, tt, fl, pc, i, st)
    ensures i <= |m.subject|
  {
  }

  lemma NotCorrect(m: Machine, p: Tree, opt: bool, tt: Test, fl: Charset, pc: int, i: nat, st: seq<Entry>)
    requires Ready(m, TNot(p), opt, tt, fl, pc, i, st)
    ensures Correct(m, TNot(p), opt, tt, fl, pc, i, st)
    decreases TNot(p), 0
  {
    hide Machine.Reaches, Meets, At, TestFor, TestHolds, NotCode, NotByTestCode, GetFirst, TestLen, Push, Gen, Match,
      WellFormed, StackNeed, HeadFail, Ready;
    ReadyPos(m, TNot(p), opt, tt, fl, pc, i, st);
    var s := m.subject;
    NotReady(m, p, opt, tt, fl, pc, i, st);
    if HeadFail(p) {
      NotByTestCorrect(m, p, opt, tt, fl, pc, i, st);
    } else {
      var f := GetFirst(p, Full);
      var test := TestFor(f.cs, f.e);
      TestRefuses(p, f.e, s, i);
      var c := Gen(p, false, NoTest, Full);
      GenNot(p, opt, tt, fl);
      NotAt(m.code, pc, test, c);
      var pc1 := pc + TestLen(test) + 2;
      var st1 := Push(st, pc1 + |c| + 1, i);
      PopPush(st, pc1 + |c| + 1, i);
      if TestHolds(test, s, i) {
        BodyReady(m, p, NoTest, pc1, i, st1);
        GenCorrect(m, p, false, NoTest, Full, pc1, i, st1);
      }
      NotRuns(m, test, c, opt, fl, pc, i, st, Match(p, s, i));
    }
  }

  /** The body of a predicate runs on its own, with one entry more. */
  lemma BodyReady(m: Machine, p: Tree, tt: Test, pc: int, i: nat, st: seq<Entry>)
    requires WellFormed(p) && |st| + StackNeed(p) <= m.limit && i <= |m.subject|
    requires TestHolds(tt, m.subject, i) || tt.NoTest?
    requires At(m.code, pc, Gen(p, false, tt, Full))
    ensures Ready(m, p, false, tt, Full, pc, i, st)
  {
    hide At, Gen, WellFormed, StackNeed;
    NoTestHolds(m.subject, i);
  }

  lemma HeadFailTest(p: Tree, s: Subject, i: nat)
    requires i <= |s| && HeadFail(p)
    ensures TestHolds(TestFor(GetFirst(p, Full).cs, GetFirst(p, Full).e), s, i) <==> Match(p, s, i).Some?
  {
    HeadFailSound(p, s, i);
    TestForSet(GetFirst(p, Full).cs, false);
  }

  lemma AndReady(m: Machine, p: Tree, opt: bool, tt: Test, fl: Charset, pc: int, i: nat, st: seq<Entry>)
    requires Ready(m, TAnd(p), opt, tt, fl, pc, i, st)
    ensures WellFormed(p) && |st| + 1 + StackNeed(p) <= m.limit && (opt ==> st != []) && TestHolds(tt, m.subject, i)
    ensures At(m.code, pc, Gen(TAnd(p), opt, tt, fl))
    ensures Match(TAnd(p), m.subject, i) == if Match(p, m.subject, i).Some? then Some(i) else None
  {
    hide At, Gen, TestHolds;
  }

  lemma AndAt(code: seq<Slot>, pc: int, c: seq<Slot>)
    requires At(code, pc, AndCode(c))
    ensures At(code, pc + 2, c)
  {
    hide At, Labelled, Simple;
    AtSplit4(code, pc, Labelled(IChoice, |c| + 4), c, Labelled(IBackCommit, 3), Simple(IFail, 0));
  }

  lemma AndCorrect(m: Machine, p: Tree, opt: bool, tt: Test, fl: Charset, pc: int, i: nat, st: seq<Entry>)
    requires Ready(m, TAnd(p), opt, tt, fl, pc, i, st)
    ensures Correct(m, TAnd(p), opt, tt, fl, pc, i, st)
    decreases TAnd(p), 0
  {
    hide Machine.Reaches, Meets, At, TestHolds, CodeBehind, AndCode, Push, Gen, Match, WellFormed, StackNeed, Ready,
      FixedLen;
    ReadyPos(m, TAnd(p), opt, tt, fl, pc, i, st);
    AndReady(m, p, opt, tt, fl, pc, i, st);
    GenAnd(p, opt, tt, fl);
    var c := Gen(p, false, tt, Full);
    var r := Match(p, m.subject, i);
    if AndByBehind(p) {
      var n := FixedLen(p);
      AtSplit(m.code, pc, c, CodeBehind(n));
      BodyReady(m, p, tt, pc, i, st);
      GenCorrect(m, p, false, tt, Full, pc, i, st);
      FixedLenSound(p, m.subject, i);
      AndByBehindRuns(m, c, n, opt, fl, pc, i, st, r);
    } else {
      var st1 := Push(st, pc + |c| + 4, i);
      PopPush(st, pc + |c| + 4, i);
      AndAt(m.code, pc, c);
      BodyReady(m, p, tt, pc + 2, i, st1);
      GenCorrect(m, p, false, tt, Full, pc + 2, i, st1);
      AndRuns(m, c, opt, fl, pc, i, st, r);
    }
  }

  lemma BehindReady(m: Machine, p: Tree, n: nat, opt: bool, tt: Test, fl: Charset, pc: int, i: nat, st: seq<Entry>)
    requires Ready(m, TBehind(p, n), opt, tt, fl, pc, i, st)
    ensures WellFormed(p) && FixedLen(p) == n && n <= MAXBEHIND && |st| + StackNeed(p) <= m.limit && (opt ==> st != [])
    ensures At(m.code, pc, Gen(TBehind(p, n), opt, tt, fl))
    ensures Match(TBehind(p, n), m.subject, i) ==
      if n <= i && Match(p, m.subject, i - n).Some? then Some(i) else None
  {
    hide At, Gen, TestHolds, FixedLen;
  }

  lemma BehindCorrect(m: Machine, p: Tree, n: nat, opt: bool, tt: Test, fl: Charset, pc: int, i: nat, st: seq<Entry>)
    requires Ready(m, TBehind(p, n), opt, tt, fl, pc, i, st)
    ensures Correct(m, TBehind(p, n), opt, tt, fl, pc, i, st)
    decreases TBehind(p, n), 0
  {
    hide Machine.Reaches, Meets, At, CodeBehind, Gen, Match, WellFormed, StackNeed, Ready, FixedLen;
    ReadyPos(m, TBehind(p, n), opt, tt, fl, pc, i, st);
    BehindReady(m, p, n, opt, tt, fl, pc, i, st);
    GenBehind(p, n, opt, tt, fl);
    var c := Gen(p, false, NoTest, Full);
    AtSplit(m.code, pc, CodeBehind(n), c);
    var r: Option<nat> := None;
    if n <= i {
      BodyReady(m, p, NoTest, pc + |CodeBehind(n)|, i - n, st);
      GenCorrect(m, p, false, NoTest, Full, pc + |CodeBehind(n)|, i - n, st);
      FixedLenSound(p, m.subject, i - n);
      r := Match(p, m.subject, i - n);
    }
    BehindRuns(m, c, n, opt, fl, pc, i, st, r);
  }
}
