/** The compiler of lpcode.c as it works: it appends to a code buffer, patches the jumps
    it left open, and finally optimizes the jumps in place. */
module Compiler {
  import opened Common
  import opened Peg
  import opened Analysis
  import opened Vm
  import C = Codegen
  import opened Layout
  import opened Jumps

  type Slots = seq<Slot>

  /** No test. */
  const NOINST := -1

  /** An instruction whose offset has not been set yet. */
  function Open(op: Opcode): (r: Slots)
    ensures |r| == 2
  {
    [Inst(op, 0), Inst(IAny, 0)]
  }

  function OpenTest(tt: C.Test): (r: Slots)
    ensures |r| == C.TestLen(tt)
  {
    if tt.NoTest? then [] else C.TestCode(tt, 0)[1 := Inst(IAny, 0)]
  }

  /** `tt` indexes an emitted test, or is NOINST. */
  predicate IsTest(code: Slots, tt: int) {
    || tt == NOINST
    || (&& 0 <= tt && tt + 1 < |code|
        && code[tt].Inst?
        && code[tt].code in {IJmp, ITestAny, ITestChar, ITestSet}
        && (code[tt].code == ITestSet ==> tt + 2 < |code| && code[tt + 2].Buff?))
  }

  function TestAt(code: Slots, tt: int): C.Test
    requires IsTest(code, tt)
  {
    if tt == NOINST then C.NoTest
    else if code[tt].code == IJmp then C.JmpTest
    else if code[tt].code == ITestAny then C.AnyTest
    else if code[tt].code == ITestChar then C.CharTest(code[tt].aux)
    else C.SetTest(code[tt + 2].cs)
  }

  lemma NoTestAt(code: Slots)
    ensures IsTest(code, NOINST) && TestAt(code, NOINST) == C.NoTest
  {
  }

  lemma TestStays(code: Slots, more: Slots, tt: int)
    requires IsTest(code, tt)
    ensures IsTest(code + more, tt) && TestAt(code + more, tt) == TestAt(code, tt)
  {
  }

  lemma Patch(pre: Slots, mid: Slots, post: Slots, k: nat, x: Slot)
    requires k < |mid|
    ensures (pre + mid + post)[|pre| + k := x] == pre + mid[k := x] + post
  {
  }

  lemma Assoc(a: Slots, b: Slots, c: Slots)
    ensures a + (b + c) == a + b + c
  {
  }

  /** Closing an open test at the end of `pre`. */
  lemma CloseTest(pre: Slots, tt: C.Test, post: Slots, at: int, d: int)
    requires at == if tt.NoTest? then NOINST else |pre|
    ensures pre + C.TestCode(tt, d) + post
      == if at < 0 then pre + OpenTest(tt) + post else (pre + OpenTest(tt) + post)[at + 1 := Offset(d)]
  {
    if !tt.NoTest? {
      Patch(pre, OpenTest(tt), post, 1, Offset(d));
      assert OpenTest(tt)[1 := Offset(d)] == C.TestCode(tt, d);
    }
  }

  lemma CloseOpen(pre: Slots, op: Opcode, post: Slots, d: int)
    ensures pre + C.Labelled(op, d) + post == (pre + Open(op) + post)[|pre| + 1 := Offset(d)]
  {
    Patch(pre, Open(op), post, 1, Offset(d));
    assert Open(op)[1 := Offset(d)] == C.Labelled(op, d);
  }

  lemma CloseLast(pre: Slots, op: Opcode, d: int)
    ensures pre + C.Labelled(op, d) == (pre + Open(op))[|pre| + 1 := Offset(d)]
  {
    CloseOpen(pre, op, [], d);
    assert pre + Open(op) + [] == pre + Open(op);
    assert pre + C.Labelled(op, d) + [] == pre + C.Labelled(op, d);
  }

  // ----- assembling the layouts -----

  lemma JoinChoiceByTest(pre: Slots, tt: C.Test, c1: Slots, jump: bool, c2: Slots)
    ensures var j := if jump then C.Labelled(IJmp, 2 + |c2|) else [];
      pre + C.TestCode(tt, C.TestLen(tt) + |c1| + |j|) + c1 + j + c2 == pre + C.ChoiceByTestCode(tt, c1, jump, c2)
  {
    hide C.TestCode, C.Labelled;
    var j := if jump then C.Labelled(IJmp, 2 + |c2|) else [];
    var t := C.TestCode(tt, C.TestLen(tt) + |c1| + |j|);
    Assoc(pre, t, c1);
    Assoc(pre, t + c1, j);
    Assoc(pre, t + c1 + j, c2);
  }

  lemma JoinChoice(pre: Slots, tt: C.Test, c1: Slots, c2: Slots)
    ensures pre + C.TestCode(tt, C.TestLen(tt) + |c1| + 4)
      + (C.Labelled(IChoice, |c1| + 4) + c1) + C.Labelled(ICommit, 2 + |c2|) + c2
      == pre + C.ChoiceCode(tt, c1, c2)
  {
    hide C.TestCode, C.Labelled;
    var t := C.TestCode(tt, C.TestLen(tt) + |c1| + 4);
    var mid := C.Labelled(IChoice, |c1| + 4) + c1;
    var com := C.Labelled(ICommit, 2 + |c2|);
    Assoc(pre + t, mid, com);
    Assoc(pre + t, mid + com, c2);
    Assoc(pre, t, mid + com + c2);
  }

  lemma JoinRepByTest(pre: Slots, tt: C.Test, c: Slots)
    ensures pre + C.TestCode(tt, C.TestLen(tt) + |c| + 2) + c + C.Labelled(IJmp, -(C.TestLen(tt) + |c|))
      == pre + C.RepByTestCode(tt, c)
  {
    hide C.TestCode, C.Labelled;
    var t := C.TestCode(tt, C.TestLen(tt) + |c| + 2);
    Assoc(pre, t, c);
    Assoc(pre, t + c, C.Labelled(IJmp, -(C.TestLen(tt) + |c|)));
  }

  lemma JoinRep(pre: Slots, tt: C.Test, opt: bool, c: Slots)
    ensures var enter := if opt then C.Labelled(IPartialCommit, 2) else C.Labelled(IChoice, |c| + 4);
      pre + C.TestCode(tt, C.TestLen(tt) + |c| + 4) + (enter + (c + C.Labelled(IPartialCommit, -|c|)))
      == pre + C.RepCode(tt, opt, c)
  {
    hide C.TestCode, C.Labelled;
    var enter := if opt then C.Labelled(IPartialCommit, 2) else C.Labelled(IChoice, |c| + 4);
    var t := C.TestCode(tt, C.TestLen(tt) + |c| + 4);
    var l := C.Labelled(IPartialCommit, -|c|);
    Assoc(enter, c, l);
    Assoc(pre, t, enter + c + l);
    Assoc(t, enter + c, l);
    Assoc(t, enter, c);
  }

  lemma JoinNot(pre: Slots, tt: C.Test, c: Slots)
    ensures pre + C.TestCode(tt, C.TestLen(tt) + |c| + 3) +
      (C.Labelled(IChoice, |c| + 3) + (c + C.Simple(IFailTwice, 0)))
      == pre + C.NotCode(tt, c)
  {
    hide C.TestCode, C.Labelled, C.Simple;
    var t := C.TestCode(tt, C.TestLen(tt) + |c| + 3);
    var l, f := C.Labelled(IChoice, |c| + 3), C.Simple(IFailTwice, 0);
    Assoc(l, c, f);
    Assoc(pre, t, l + c + f);
    Assoc(t, l + c, f);
    Assoc(t, l, c);
  }

  lemma JoinAnd(pre: Slots, c: Slots)
    ensures pre + C.Labelled(IChoice, |c| + 4) + c + C.Labelled(IBackCommit, 3) + C.Simple(IFail, 0)
      == pre + C.AndCode(c)
  {
    hide C.Labelled, C.Simple;
    var l := C.Labelled(IChoice, |c| + 4);
    Assoc(pre, l, c);
    Assoc(pre, l + c, C.Labelled(IBackCommit, 3));
    Assoc(pre, l + c + C.Labelled(IBackCommit, 3), C.Simple(IFail, 0));
  }

  class CompileState {
    var code: Slots

    constructor ()
      ensures code == []
    {
      code := [];
    }

    method AddInstruction(op: Opcode, aux: int) returns (i: int)
      modifies this
      ensures code == old(code) + C.Simple(op, aux)
      ensures i == |old(code)|
    {
      i := |code|;
      code := code + [Inst(op, aux % 256)];
    }

    method AddOffsetInst(op: Opcode) returns (i: int)
      modifies this
      ensures code == old(code) + Open(op)
      ensures i == |old(code)|
    {
      i := AddInstruction(op, 0);
      var _ := AddInstruction(IAny, 0);
    }

    method SetOffset(instruction: int, offset: int)
      requires 0 <= instruction && instruction + 1 < |code|
      modifies this
      ensures code == old(code)[instruction + 1 := Offset(offset)]
    {
      code := code[instruction + 1 := Offset(offset)];
    }

    method JumpToThere(instruction: int, target: int)
      requires 0 <= instruction ==> instruction + 1 < |code|
      modifies this
      ensures code == if instruction < 0 then old(code)
                      else old(code)[instruction + 1 := Offset(target - instruction)]
    {
      if instruction >= 0 {
        SetOffset(instruction, target - instruction);
      }
    }

    method JumpToHere(instruction: int)
      requires 0 <= instruction ==> instruction + 1 < |code|
      modifies this
      ensures code == if instruction < 0 then old(code)
                      else old(code)[instruction + 1 := Offset(|old(code)| - instruction)]
    {
      JumpToThere(instruction, |code|);
    }

    /** `jumptohere` on a test that is still open. */
    method TestToHere(instruction: int, ghost pre: Slots, ghost tt: C.Test, ghost post: Slots)
      requires code == pre + OpenTest(tt) + post
      requires instruction == if tt.NoTest? then NOINST else |pre|
      modifies this
      ensures code == pre + C.TestCode(tt, |old(code)| - |pre|) + post
    {
      CloseTest(pre, tt, post, instruction, |code| - |pre|);
      JumpToHere(instruction);
    }

    /** `jumptothere` on an instruction whose offset is still open. */
    method OpenToThere(instruction: int, target: int, ghost pre: Slots, ghost op: Opcode, ghost post: Slots)
      requires code == pre + Open(op) + post && instruction == |pre|
      modifies this
      ensures code == pre + C.Labelled(op, target - instruction) + post
    {
      CloseOpen(pre, op, post, target - instruction);
      JumpToThere(instruction, target);
    }

    method AddCharset(cs: Charset)
      modifies this
      ensures code == old(code) + C.SetSlots(cs)
    {
      var p := |code|;
      code := code + [Pad, Pad, Pad, Pad, Pad, Pad, Pad, Pad];
      code := code[p := Buff(cs)];
    }

    method CodeChar(c: Byte, tt: int)
      requires IsTest(code, tt)
      modifies this
      ensures code == old(code) + C.CodeChar(c, TestAt(old(code), tt))
    {
      if tt >= 0 && code[tt].code == ITestChar && code[tt].aux == c {
        var _ := AddInstruction(IAny, 0);
      } else {
        var _ := AddInstruction(IChar, c);
      }
    }

    method CodeCharset(cs: Charset, tt: int)
      requires IsTest(code, tt)
      modifies this
      ensures code == old(code) + C.CodeCharset(cs, TestAt(old(code), tt))
    {
      match C.CharsetType(cs)
      case KChar(c) => CodeChar(c, tt);
      case KSet =>
        if tt >= 0 && code[tt].code == ITestSet && code[tt + 2].cs == cs {
          var _ := AddInstruction(IAny, 0);
        } else {
          var _ := AddInstruction(ISet, 0);
          AddCharset(cs);
        }
      case KFail => var _ := AddInstruction(IFail, 0);
      case KAny => var _ := AddInstruction(IAny, 0);
    }

    method CodeTestSet(cs: Charset, e: bool) returns (tt: int)
      modifies this
      ensures code == old(code) + OpenTest(C.TestFor(cs, e))
      ensures tt == if e then NOINST else |old(code)|
      ensures C.TestFor(cs, e).NoTest? <==> e
      ensures IsTest(code, tt) && TestAt(code, tt) == C.TestFor(cs, e)
    {
      if e { return NOINST; }
      match C.CharsetType(cs)
      case KFail => tt := AddOffsetInst(IJmp);
      case KAny => tt := AddOffsetInst(ITestAny);
      case KChar(c) =>
        tt := AddOffsetInst(ITestChar);
        code := code[tt := Inst(ITestChar, c)];
      case KSet =>
        tt := AddOffsetInst(ITestSet);
        AddCharset(cs);
    }

    method CodeBehind(p: Tree, n: nat)
      modifies this
      ensures code == old(code) + C.Gen(TBehind(p, n), false, C.NoTest, Full)
      decreases TBehind(p, n), 0
    {
      hide C.Gen;
      ghost var pre := code;
      if n > 0 {
        var _ := AddInstruction(IBehind, n);
      }
      assert code == pre + C.CodeBehind(n);
      NoTestAt(code);
      CodeGen(p, false, NOINST, Full);
      C.GenBehind(p, n, false, C.NoTest, Full);
      Assoc(pre, C.CodeBehind(n), C.Gen(p, false, C.NoTest, Full));
    }

    /** The branch of `codechoice` that selects by the first character. */
    method CodeChoiceByTest(p1: Tree, p2: Tree, opt: bool, fl: Charset, cs: Charset)
      modifies this
      ensures var tt := C.TestFor(cs, false);
        code == old(code) + C.ChoiceByTestCode(tt, C.Gen(p1, false, tt, fl), !p2.TTrue?, C.Gen(p2, opt, C.NoTest, fl))
      decreases TChoice(p1, p2), 0, 0
    {
      hide C.Gen, C.TestFor, C.TestCode, C.TestLen, C.Labelled, C.ChoiceByTestCode, Open, OpenTest, IsTest, TestAt;
      ghost var pre, tt := code, C.TestFor(cs, false);
      var test := CodeTestSet(cs, false);
      var jmp := NOINST;
      CodeGen(p1, false, test, fl);
      ghost var c1 := C.Gen(p1, false, tt, fl);
      ghost var j: Slots := [];
      if !p2.TTrue? {
        jmp := AddOffsetInst(IJmp);
        j := Open(IJmp);
      } else {
        assert code == code + j;
      }
      Assoc(pre + OpenTest(tt), c1, j);
      TestToHere(test, pre, tt, c1 + j);
      ghost var head := pre + C.TestCode(tt, C.TestLen(tt) + |c1| + |j|) + c1;
      Assoc(pre + C.TestCode(tt, C.TestLen(tt) + |c1| + |j|), c1, j);
      NoTestAt(code);
      CodeGen(p2, opt, NOINST, fl);
      ghost var c2 := C.Gen(p2, opt, C.NoTest, fl);
      if jmp != NOINST { OpenToThere(jmp, |code|, head, IJmp, c2); }
      JoinChoiceByTest(pre, tt, c1, !p2.TTrue?, c2);
    }

    /** The default branch of `codechoice`. */
    method CodeChoicePlain(p1: Tree, p2: Tree, opt: bool, fl: Charset, cs: Charset, e: bool)
      modifies this
      ensures var tt := C.TestFor(cs, e);
        code == old(code) + C.ChoiceCode(tt, C.Gen(p1, p2.TTrue?, tt, Full), C.Gen(p2, opt, C.NoTest, fl))
      decreases TChoice(p1, p2), 0, 0
    {
      hide C.Gen, C.TestFor, C.TestCode, C.TestLen, C.Labelled, C.ChoiceCode, Open, OpenTest, IsTest, TestAt;
      ghost var pre, tt := code, C.TestFor(cs, e);
      var test := CodeTestSet(cs, e);
      var pchoice := AddOffsetInst(IChoice);
      TestStays(pre + OpenTest(tt), Open(IChoice), test);
      CodeGen(p1, p2.TTrue?, test, Full);
      ghost var c1 := C.Gen(p1, p2.TTrue?, tt, Full);
      var pcommit := AddOffsetInst(ICommit);
      Assoc(pre + OpenTest(tt) + Open(IChoice), c1, Open(ICommit));
      OpenToThere(pchoice, |code|, pre + OpenTest(tt), IChoice, c1 + Open(ICommit));
      ghost var mid := C.Labelled(IChoice, |c1| + 4) + c1;
      Assoc(pre + OpenTest(tt) , C.Labelled(IChoice, |c1| + 4), c1 + Open(ICommit));
      Assoc(C.Labelled(IChoice, |c1| + 4), c1, Open(ICommit));
      TestToHere(test, pre, tt, mid + Open(ICommit));
      ghost var head := pre + C.TestCode(tt, C.TestLen(tt) + |c1| + 4) + mid;
      Assoc(pre + C.TestCode(tt, C.TestLen(tt) + |c1| + 4), mid, Open(ICommit));
      NoTestAt(code);
      CodeGen(p2, opt, NOINST, fl);
      ghost var c2 := C.Gen(p2, opt, C.NoTest, fl);
      OpenToThere(pcommit, |code|, head, ICommit, c2);
      JoinChoice(pre, tt, c1, c2);
    }

    method CodeChoice(p1: Tree, p2: Tree, opt: bool, fl: Charset)
      modifies this
      ensures code == old(code) + C.Gen(TChoice(p1, p2), opt, C.NoTest, fl)
      decreases TChoice(p1, p2), 0
    {
      hide C.Gen, C.TestFor, C.TestLen, C.Labelled, C.ChoiceByTestCode, C.ChoiceCode, GetFirst, Open, IsTest, TestAt,
           C.Disjoint;
      C.GenChoice(p1, p2, opt, C.NoTest, fl);
      var f1 := GetFirst(p1, Full);
      if HeadFail(p1) || (!f1.e && C.Disjoint(f1.cs, GetFirst(p2, fl).cs)) {
        CodeChoiceByTest(p1, p2, opt, fl, f1.cs);
      } else if opt && p2.TTrue? {
        ghost var pre := code;
        var pc := AddOffsetInst(IPartialCommit);
        CloseLast(pre, IPartialCommit, 2);
        JumpToHere(pc);
        NoTestAt(code);
        CodeGen(p1, true, NOINST, Full);
        Assoc(pre, C.Labelled(IPartialCommit, 2), C.Gen(p1, true, C.NoTest, Full));
      } else {
        CodeChoicePlain(p1, p2, opt, fl, f1.cs, f1.e);
      }
    }

    method CodeAnd(p: Tree, test: int)
      requires IsTest(code, test)
      modifies this
      ensures code == old(code) + C.Gen(TAnd(p), false, TestAt(old(code), test), Full)
      decreases TAnd(p), 0
    {
      hide C.Gen, C.Labelled, C.AndCode, Open, TestAt, C.Simple;
      ghost var pre, tt := code, TestAt(code, test);
      C.GenAnd(p, false, tt, Full);
      var n := FixedLen(p);
      if 0 <= n <= MAXBEHIND {
        CodeGen(p, false, test, Full);
        if n > 0 {
          var _ := AddInstruction(IBehind, n);
        } else {
          assert code == code + [];
        }
        Assoc(pre, C.Gen(p, false, tt, Full), C.CodeBehind(n));
      } else {
        CodeAndPlain(p, test);
      }
    }

    /** `IChoice -> L1; <p>; IBackCommit -> L2; L1: IFail; L2:` */
    method CodeAndPlain(p: Tree, test: int)
      requires IsTest(code, test)
      modifies this
      ensures code == old(code) + C.AndCode(C.Gen(p, false, TestAt(old(code), test), Full))
      decreases p, 2
    {
      hide C.Gen, C.Labelled, C.AndCode, Open, TestAt, C.Simple;
      ghost var pre, tt := code, TestAt(code, test);
      ghost var c := C.Gen(p, false, tt, Full);
      var pchoice := AddOffsetInst(IChoice);
      TestStays(pre, Open(IChoice), test);
      CodeGen(p, false, test, Full);
      var pcommit := AddOffsetInst(IBackCommit);
      Assoc(pre + Open(IChoice), c, Open(IBackCommit));
      OpenToThere(pchoice, |code|, pre, IChoice, c + Open(IBackCommit));
      ghost var head := pre + C.Labelled(IChoice, |c| + 4) + c;
      Assoc(pre + C.Labelled(IChoice, |c| + 4), c, Open(IBackCommit));
      var _ := AddInstruction(IFail, 0);
      OpenToThere(pcommit, |code|, head, IBackCommit, C.Simple(IFail, 0));
      JoinAnd(pre, c);
    }

    /** The branch of `coderep` that enters the body by its first character. */
    method CodeRepByTest(p: Tree, cs: Charset)
      modifies this
      ensures var tt := C.TestFor(cs, false);
        code == old(code) + C.RepByTestCode(tt, C.Gen(p, false, tt, Full))
      decreases TRep(p), 0, 0
    {
      hide C.Gen, C.TestFor, C.TestCode, C.TestLen, C.Labelled, C.RepByTestCode, Open, OpenTest, IsTest, TestAt;
      ghost var pre, tt := code, C.TestFor(cs, false);
      var test := CodeTestSet(cs, false);
      CodeGen(p, false, test, Full);
      ghost var c := C.Gen(p, false, tt, Full);
      var jmp := AddOffsetInst(IJmp);
      Assoc(pre + OpenTest(tt), c, Open(IJmp));
      TestToHere(test, pre, tt, c + Open(IJmp));
      ghost var head := pre + C.TestCode(tt, C.TestLen(tt) + |c| + 2) + c;
      Assoc(pre + C.TestCode(tt, C.TestLen(tt) + |c| + 2), c, Open(IJmp));
      CloseLast(head, IJmp, -(C.TestLen(tt) + |c|));
      JumpToThere(jmp, test);
      JoinRepByTest(pre, tt, c);
    }

    /** The default branch of `coderep`. */
    method CodeRepPlain(p: Tree, opt: bool, cs: Charset, e: bool)
      modifies this
      ensures code == old(code) + C.RepCode(C.TestFor(cs, e), opt, C.Gen(p, false, C.NoTest, Full))
      decreases TRep(p), 0, 0
    {
      hide C.Gen, C.TestFor, C.TestCode, C.TestLen, C.Labelled, C.RepCode, Open, OpenTest, IsTest, TestAt;
      ghost var pre, tt := code, C.TestFor(cs, e);
      var test := CodeTestSet(cs, e);
      var pchoice := NOINST;
      ghost var enter: Slots;
      if opt {
        var pc := AddOffsetInst(IPartialCommit);
        CloseLast(pre + OpenTest(tt), IPartialCommit, 2);
        JumpToHere(pc);
        enter := C.Labelled(IPartialCommit, 2);
      } else {
        pchoice := AddOffsetInst(IChoice);
        enter := Open(IChoice);
      }
      var l2 := |code|;
      NoTestAt(code);
      CodeGen(p, false, NOINST, Full);
      ghost var c := C.Gen(p, false, C.NoTest, Full);
      var commit := AddOffsetInst(IPartialCommit);
      CloseLast(pre + OpenTest(tt) + enter + c, IPartialCommit, -|c|);
      JumpToThere(commit, l2);
      ghost var tail := c + C.Labelled(IPartialCommit, -|c|);
      Assoc(pre + OpenTest(tt) + enter, c, C.Labelled(IPartialCommit, -|c|));
      if pchoice != NOINST {
        OpenToThere(pchoice, |code|, pre + OpenTest(tt), IChoice, tail);
        enter := C.Labelled(IChoice, |c| + 4);
      }
      Assoc(pre + OpenTest(tt), enter, tail);
      TestToHere(test, pre, tt, enter + tail);
      JoinRep(pre, tt, opt, c);
    }

    method CodeRep(p: Tree, opt: bool, fl: Charset)
      modifies this
      ensures code == old(code) + C.Gen(TRep(p), opt, C.NoTest, fl)
      decreases TRep(p), 0
    {
      hide C.Gen, C.TestFor, C.RepByTestCode, C.RepCode, GetFirst, ToCharset, C.Disjoint, C.Simple, C.SetSlots;
      C.GenRep(p, opt, C.NoTest, fl);
      var st := ToCharset(p);
      if st.Some? {
        ghost var pre := code;
        var _ := AddInstruction(ISpan, 0);
        AddCharset(st.value);
        Assoc(pre, C.Simple(ISpan, 0), C.SetSlots(st.value));
      } else {
        var f := GetFirst(p, Full);
        if HeadFail(p) || (!f.e && C.Disjoint(f.cs, fl)) {
          CodeRepByTest(p, f.cs);
        } else {
          CodeRepPlain(p, opt, f.cs, f.e);
        }
      }
    }

    method CodeNot(p: Tree)
      modifies this
      ensures code == old(code) + C.Gen(TNot(p), false, C.NoTest, Full)
      decreases TNot(p), 0
    {
      hide C.Gen, C.TestFor, C.TestCode, C.TestLen, C.Labelled, C.NotCode, GetFirst, Open, OpenTest, IsTest, TestAt,
        C.Simple;
      C.GenNot(p, false, C.NoTest, Full);
      ghost var pre := code;
      var f := GetFirst(p, Full);
      ghost var tt := C.TestFor(f.cs, f.e);
      var test := CodeTestSet(f.cs, f.e);
      if HeadFail(p) {
        var _ := AddInstruction(IFail, 0);
        TestToHere(test, pre, tt, C.Simple(IFail, 0));
        Assoc(pre, C.TestCode(tt, C.TestLen(tt) + 1), C.Simple(IFail, 0));
      } else {
        var pchoice := AddOffsetInst(IChoice);
        NoTestAt(code);
        CodeGen(p, false, NOINST, Full);
        ghost var c := C.Gen(p, false, C.NoTest, Full);
        var _ := AddInstruction(IFailTwice, 0);
        ghost var tail := c + C.Simple(IFailTwice, 0);
        Assoc(pre + OpenTest(tt) + Open(IChoice), c, C.Simple(IFailTwice, 0));
        OpenToThere(pchoice, |code|, pre + OpenTest(tt), IChoice, tail);
        Assoc(pre + OpenTest(tt), C.Labelled(IChoice, |c| + 3), tail);
        TestToHere(test, pre, tt, C.Labelled(IChoice, |c| + 3) + tail);
        JoinNot(pre, tt, c);
      }
    }

    /** Code for the first pattern of a sequence; returns the test that protects the second. */
    method CodeSeq1(p1: Tree, p2: Tree, tt: int, fl: Charset) returns (r: int)
      requires IsTest(code, tt)
      modifies this
      ensures code == old(code) + C.Gen(p1, false, TestAt(old(code), tt), C.FollowIn(p1, p2, fl))
      ensures IsTest(code, r) && TestAt(code, r) == C.TestAfter(p1, TestAt(old(code), tt))
      decreases TSeq(p1, p2), 0
    {
      hide C.Gen;
      ghost var pre := code;
      if NeedFollow(p1) {
        var fl1 := GetFirst(p2, fl).cs;
        CodeGen(p1, false, tt, fl1);
      } else {
        CodeGen(p1, false, tt, Full);
      }
      TestStays(pre, C.Gen(p1, false, TestAt(pre, tt), C.FollowIn(p1, p2, fl)), tt);
      r := if FixedLen(p1) != 0 then NOINST else tt;
    }

    /** Appends the code of a pattern. */
    method CodeGen(tree: Tree, opt: bool, tt: int, fl: Charset)
      requires IsTest(code, tt)
      modifies this
      ensures code == old(code) + C.Gen(tree, opt, TestAt(old(code), tt), fl)
      decreases tree, 1
    {
      hide TestAt, IsTest;
      ghost var test := TestAt(code, tt);
      match tree
      case TChar(c) => CodeChar(c, tt);
      case TAny => var _ := AddInstruction(IAny, 0);
      case TSet(cs) => CodeCharset(cs, tt);
      case TTrue =>
      case TFalse => var _ := AddInstruction(IFail, 0);
      case TChoice(p1, p2) => CodeChoice(p1, p2, opt, fl); SameGen(tree, opt, test, fl);
      case TRep(p) => CodeRep(p, opt, fl); SameGen(tree, opt, test, fl);
      case TBehind(p, n) => CodeBehind(p, n); SameGen(tree, opt, test, fl);
      case TNot(p) => CodeNot(p); SameGen(tree, opt, test, fl);
      case TAnd(p) => CodeAnd(p, tt); SameGen(tree, opt, test, fl);
      case TSeq(p1, p2) =>
        ghost var pre := code;
        var tt2 := CodeSeq1(p1, p2, tt, fl);
        CodeGen(p2, opt, tt2, fl);
        C.GenSeq(p1, p2, opt, test, fl);
        Assoc(pre, C.Gen(p1, false, test, C.FollowIn(p1, p2, fl)), C.Gen(p2, opt, C.TestAfter(p1, test), fl));
    }

    // ----- peephole -----

    method FinalTarget(from: int, ghost o: Slots) returns (i: int)
      requires Closed(o) && Linked(o, code) && IsOp(o, from)
      ensures SameFinal(o, i, from) && IsOp(code, i) && code[i].code != IJmp
      ensures IsJump(code, from) ==> Rank(o, i) < Rank(o, from)
    {
      i := from;
      LinkedOp(o, code, i);
      while code[i].code == IJmp
        invariant SameFinal(o, i, from) && IsOp(code, i)
        invariant i == from || Rank(o, i) < Rank(o, from)
        decreases Rank(o, i)
      {
        JumpLinked(o, code, i);
        i := TargetOf(code, i);
        LinkedOp(o, code, i);
      }
    }

    method FinalLabel(i: int, ghost o: Slots) returns (f: int)
      requires Closed(o) && Linked(o, code) && IsOp(o, i)
      requires IsOp(code, i) && HasLabel(code[i].code) && Decodes(code, i) && IsOp(o, TargetOf(code, i))
      ensures SameFinal(o, f, TargetOf(code, i)) && IsOp(code, f) && code[f].code != IJmp
    {
      f := FinalTarget(TargetOf(code, i), o);
    }

    /** The label case of the loop in `peephole`: follow the label to its end. */
    method OptimizeLabel(i: int, ghost o: Slots)
      requires Closed(o) && Linked(o, code) && IsOp(o, i)
      requires IsOp(code, i) && HasLabel(code[i].code) && code[i].code != IJmp
      modifies this
      ensures Linked(o, code) && ChangedAt(old(code), code, i) && OptimizedAt(o, code, i)
      ensures code[i] == old(code)[i]
    {
      hide Closed, Linked, LinkedAt, Acts, Final, Rank, SameFinal;
      ghost var c := code;
      LinkedOp(o, code, i);
      LabelLinked(o, code, i);
      var f := FinalLabel(i, o);
      LabelMoved(o, c, i, f);
      JumpToThere(i, f);
      LinkedUpdate(o, c, code, i);
      assert OptimizedAt(o, code, i) by { SameFinalOps(o, f, TargetOf(c, i)); }
    }

    /** The jump case of the loop in `peephole`: a jump becomes the instruction it leads to, if
        that one never falls through; otherwise it is shortened. */
    method OptimizeJump(i: int, ghost o: Slots)
      requires Closed(o) && Linked(o, code) && IsOp(o, i) && IsJump(code, i)
      modifies this
      ensures Linked(o, code) && ChangedAt(old(code), code, i) && OptimizedAt(o, code, i)
      ensures IsOp(code, i) && i + 1 < |code|
      ensures HasLabel(code[i].code) || (Size(code[i].code) == 1 && code[i + 1] == Inst(IAny, 0))
    {
      hide Closed, Linked, LinkedAt, Acts, Final, Rank, SameFinal;
      ghost var c := code;
      LinkedOp(o, code, i);
      JumpLinked(o, code, i);
      var ft := FinalTarget(i, o);
      SameFinalOps(o, ft, i);
      LinkedOp(o, code, ft);
      var fop := code[ft].code;
      if fop in {IFail, IFailTwice, IEnd} {
        BecomesSimple(o, c, i, ft);
        code := code[i := code[ft]];
        code := code[i + 1 := Inst(IAny, 0)];
        LinkedUpdate(o, c, code, i);
      } else if fop in {ICommit, IPartialCommit, IBackCommit} {
        LabelLinked(o, code, ft);
        var fft := FinalLabel(ft, o);
        BecomesLabelled(o, c, i, ft, fft);
        code := code[i := code[ft]];
        JumpToThere(i, fft);
        LinkedUpdate(o, c, code, i);
        OptimizeLabel(i, o);
      } else {
        JumpShortened(o, c, i, ft);
        JumpToThere(i, ft);
        LinkedUpdate(o, c, code, i);
      }
    }

    /** Optimizes jumps and other instructions with labels, in place. */
    method Peephole(ghost o: Slots)
      requires Closed(o) && code == o
      modifies this
      ensures Linked(o, code)
      ensures forall q :: IsOp(o, q) ==> OptimizedAt(o, code, q)
    {
      hide Closed, Linked, Size, OptimizedAt;
      LinkedSelf(o);
      ClosedEnds(o);
      var i := 0;
      while i < |code|
        invariant Linked(o, code) && |code| == |o|
        invariant 0 <= i <= |code|
        invariant Visits(o, code, i)
        invariant forall q :: IsOp(o, q) && q < i ==> OptimizedAt(o, code, q)
      {
        ghost var c := code;
        if code[i].code == IJmp {
          OptimizeJump(i, o);
        } else if HasLabel(code[i].code) {
          OptimizeLabel(i, o);
        }
        if IsOp(o, i) {
          LinkedOp(o, c, i);
          LinkedOp(o, code, i);
          PrefixStays(o, c, code, i);
          NextIndex(o, c, code, i);
          NoneInside(o, c, code, i);
        } else {
          PaddingStep();
        }
        i := i + Size(code[i].code);
      }
    }
  }

  /** Where the loop stands: on an instruction not yet looked at, or on the slot left behind
      when a jump became a smaller instruction. */
  ghost predicate Visits(o: Slots, c: Slots, i: int)
    requires |c| == |o|
  {
    0 <= i < |c| ==>
      if IsOp(o, i) then c[i..] == o[i..]
      else c[i] == Inst(IAny, 0) && c[i + 1..] == o[i + 1..] && OpOrEnd(o, i + 1)
  }

  lemma SameFinalOps(o: Slots, x: int, y: int)
    requires Closed(o) && SameFinal(o, x, y)
    ensures IsOp(o, x) && IsOp(o, y)
  {
  }

  lemma ClosedEnds(o: Slots)
    requires Closed(o)
    ensures o != [] && IsOp(o, 0) && o[|o| - 1] == Inst(IEnd, 0)
  {
  }

  lemma PaddingStep()
    ensures Size(IAny) == 1
  {
  }

  /** What was optimized before stays so. */
  lemma PrefixStays(o: Slots, c: Slots, d: Slots, i: int)
    requires Closed(o) && Linked(o, c) && Linked(o, d) && IsOp(o, i) && ChangedAt(c, d, i)
    requires IsOp(c, i) && (c[i].code != IJmp ==> c[i] == d[i])
    requires HasLabel(c[i].code) || c == d
    requires forall q :: IsOp(o, q) && q < i ==> OptimizedAt(o, c, q)
    ensures forall q :: IsOp(o, q) && q < i ==> OptimizedAt(o, d, q)
  {
    hide Closed, Linked;
    LinkedOp(o, c, i);
    forall q | IsOp(o, q) && q < i ensures OptimizedAt(o, d, q) {
      LinkedOp(o, c, q);
      assert OptimizedAt(o, c, q);
      if IsOp(c, q) && HasLabel(c[q].code) { LinkedOp(o, c, TargetOf(c, q)); }
    }
  }

  lemma SameTail(c: Slots, o: Slots, i: int, q: int)
    requires |c| == |o| && 0 <= i <= q < |o| && c[i..] == o[i..]
    ensures c[q] == o[q]
  {
    assert c[q] == c[i..][q - i] == o[i..][q - i] == o[q];
  }

  lemma ClosedNext(o: Slots, i: int)
    requires Closed(o) && IsOp(o, i)
    ensures o[i].code != IEnd ==> IsOp(o, i + Size(o[i].code))
    ensures o[i].code == IEnd ==> i + Size(o[i].code) == |o|
    ensures Solid(o, i)
    ensures IsJump(o, i) ==> Size(o[i].code) == 2 && !IsOp(o, i + 1)
  {
    assert ClosedAt(o, i);
  }

  lemma LinkedKind(o: Slots, d: Slots, i: int)
    requires Closed(o) && |d| == |o| && IsOp(o, i) && IsOp(d, i) && LinkedAt(o, d, i)
    ensures d[i] == o[i] || (IsJump(o, i) && (d[i].code in Unconditional || d[i].code == IJmp))
  {
    hide Closed, Final, Rank;
  }

  lemma SizeKept(o: Slots, d: Slots, i: int)
    requires Closed(o) && Linked(o, d) && IsOp(o, i) && IsOp(d, i)
    ensures Size(d[i].code) == Size(o[i].code) || (IsJump(o, i) && !HasLabel(d[i].code) && Size(d[i].code) == 1)
  {
    hide Closed, Linked, LinkedAt;
    LinkedHere(o, d, i);
    LinkedKind(o, d, i);
  }

  /** The step skips no instruction. */
  lemma NoneInside(o: Slots, c: Slots, d: Slots, i: int)
    requires Closed(o) && Linked(o, d) && IsOp(o, i)
    requires |c| == |o| && c[i..] == o[i..] && |d| == |o| && IsOp(d, i)
    ensures forall q :: i < q < i + Size(d[i].code) ==> !IsOp(o, q)
    ensures c[i] == o[i]
    ensures !HasLabel(d[i].code) ==> OptimizedAt(o, d, i)
  {
    hide Closed, Linked, Size;
    SameTail(c, o, i, i);
    ClosedNext(o, i);
    SizeKept(o, d, i);
  }

  /** The loop steps from instruction to instruction, through the slot left by a shrunk jump. */
  lemma NextIndex(o: Slots, c: Slots, d: Slots, i: int)
    requires Closed(o) && Linked(o, d) && |c| == |o| && IsOp(o, i) && IsOp(d, i)
    requires c[i..] == o[i..] && ChangedAt(c, d, i)
    requires !HasLabel(c[i].code) ==> d == c
    requires c[i].code == IJmp ==> HasLabel(d[i].code) || (i + 1 < |d| && d[i + 1] == Inst(IAny, 0))
    ensures i + Size(d[i].code) <= |d|
    ensures Visits(o, d, i + Size(d[i].code))
  {
    hide Closed, Linked, Size, HasLabel, Solid;
    ClosedNext(o, i);
    SizeKept(o, d, i);
    SameTail(c, o, i, i);
    var n := i + Size(o[i].code);
    forall q | n <= q < |o| ensures d[q] == o[q] {
      SameTail(c, o, i, q);
      if HasLabel(o[i].code) { LabelSize(o[i].code); }
    }
    assert d[n..] == o[n..];
  }

  lemma LabelSize(op: Opcode)
    requires HasLabel(op)
    ensures Size(op) >= 2
  {
  }

  lemma LinkedHere(o: Slots, c: Slots, i: int)
    requires Closed(o) && Linked(o, c) && IsOp(o, i)
    ensures |c| == |o| && LinkedAt(o, c, i)
  {
  }

  lemma JumpLinked(o: Slots, c: Slots, i: int)
    requires Closed(o) && Linked(o, c) && IsOp(o, i) && IsJump(c, i)
    ensures Decodes(c, i) && SameFinal(o, TargetOf(c, i), i) && Rank(o, TargetOf(c, i)) < Rank(o, i)
    ensures IsJump(o, i)
  {
    LinkedHere(o, c, i);
  }

  lemma LabelLinked(o: Slots, c: Slots, i: int)
    requires Closed(o) && Linked(o, c) && IsOp(o, i) && IsOp(c, i) && HasLabel(c[i].code) && c[i].code != IJmp
    ensures |c| == |o| && Decodes(c, i) && IsOp(o, TargetOf(c, i))
    ensures Acts(o, c, i, Final(o, i))
  {
    LinkedHere(o, c, i);
  }

  lemma FinalHere(o: Slots, c: Slots, i: int)
    requires Closed(o) && |c| == |o| && IsOp(o, i) && Acts(o, c, i, Final(o, i))
    ensures i == Final(o, i) || c[i].code in Unconditional
  {
    hide Closed, Final;
  }

  lemma BecomesSimple(o: Slots, c: Slots, i: int, ft: int)
    requires Closed(o) && Linked(o, c) && IsJump(o, i) && IsJump(c, i) && SameFinal(o, ft, i)
    requires IsOp(c, ft) && c[ft].code in {IFail, IFailTwice, IEnd} && i + 1 < |c|
    ensures LinkedAt(o, c[i := c[ft]][i + 1 := Inst(IAny, 0)], i)
  {
    hide Closed, Linked, Rank, Final, LinkedAt, Acts;
    SimpleLinked(o, c, ft);
    var d := c[i := c[ft]][i + 1 := Inst(IAny, 0)];
    SimpleActs(o, d, i, c, ft, Final(o, ft));
    ActsLinked(o, d, i);
  }

  lemma SimpleLinked(o: Slots, c: Slots, i: int)
    requires Closed(o) && Linked(o, c) && IsOp(o, i) && IsOp(c, i) && c[i].code != IJmp
    ensures |c| == |o| && Acts(o, c, i, Final(o, i))
  {
    LinkedHere(o, c, i);
  }

  /** A copy of an instruction without operands. */
  lemma SimpleActs(o: Slots, d: Slots, i: int, c: Slots, ft: int, q: int)
    requires Closed(o) && |c| == |o| && |d| == |o| && IsOp(o, i) && IsOp(o, ft) && IsOp(o, q)
    requires Acts(o, c, ft, q) && d[i] == c[ft] && IsOp(c, ft) && c[ft].code in {IFail, IFailTwice, IEnd}
    ensures Acts(o, d, i, q)
  {
    hide Closed, Final, Rank;
  }

  lemma BecomesLabelled(o: Slots, c: Slots, i: int, ft: int, fft: int)
    requires Closed(o) && Linked(o, c) && IsJump(o, i) && IsJump(c, i) && SameFinal(o, ft, i)
    requires IsOp(c, ft) && c[ft].code in {ICommit, IPartialCommit, IBackCommit} && i + 1 < |c|
    requires Decodes(c, ft) && SameFinal(o, fft, TargetOf(c, ft))
    ensures LinkedAt(o, c[i := c[ft]][i + 1 := Offset(fft - i)], i)
  {
    hide Closed, Linked, Rank, Final, LinkedAt;
    LabelLinked(o, c, ft);
    var d := c[i := c[ft]][i + 1 := Offset(fft - i)];
    assert TargetOf(d, i) == fft;
    MovedActs(o, d, i, c, ft, Final(o, ft));
    ActsLinked(o, d, i);
  }

  /** A copy of the instruction at `ft`, with its label moved along the chain. */
  lemma MovedActs(o: Slots, d: Slots, i: int, c: Slots, ft: int, q: int)
    requires Closed(o) && |c| == |o| && |d| == |o| && IsOp(o, i) && IsOp(o, ft) && IsOp(o, q)
    requires Acts(o, c, ft, q)
    requires d[i] == c[ft] && HasLabel(d[i].code) && Decodes(d, i)
    requires SameFinal(o, TargetOf(d, i), TargetOf(c, ft))
    requires i == q || c[ft].code in Unconditional
    requires var k := SetIndex(c[ft].code); k > 0 ==> i == ft && d[i + k] == c[i + k]
    ensures Acts(o, d, i, q)
  {
    hide Closed, Final, Rank;
  }

  lemma ActsLinked(o: Slots, d: Slots, i: int)
    requires Closed(o) && |d| == |o| && IsOp(o, i) && Acts(o, d, i, Final(o, i))
    ensures LinkedAt(o, d, i)
  {
    hide Acts, Rank;
  }

  lemma JumpShortened(o: Slots, c: Slots, i: int, ft: int)
    requires Closed(o) && Linked(o, c) && IsJump(o, i) && IsJump(c, i) && SameFinal(o, ft, i) && i + 1 < |c|
    requires Rank(o, ft) < Rank(o, i)
    ensures LinkedAt(o, c[i + 1 := Offset(ft - i)], i)
  {
    hide Closed, Linked, Rank, Final, Acts;
    assert |c| == |o| by { LinkedHere(o, c, i); }
    var d := c[i + 1 := Offset(ft - i)];
    assert IsJump(d, i) && Decodes(d, i) && TargetOf(d, i) == ft;
  }

  lemma LabelMoved(o: Slots, c: Slots, i: int, f: int)
    requires Closed(o) && Linked(o, c) && IsOp(o, i) && IsOp(c, i) && HasLabel(c[i].code) && c[i].code != IJmp
    requires Decodes(c, i) && SameFinal(o, f, TargetOf(c, i))
    ensures LinkedAt(o, c[i + 1 := Offset(f - i)], i)
  {
    hide Closed, Linked, Rank, Final, LinkedAt;
    LabelLinked(o, c, i);
    var d := c[i + 1 := Offset(f - i)];
    FinalHere(o, c, i);
    MovedActs(o, d, i, c, i, Final(o, i));
    ActsLinked(o, d, i);
  }

  /** Which of its arguments the code of each kind of tree depends on. */
  lemma SameGen(t: Tree, opt: bool, tt: C.Test, fl: Charset)
    ensures t.TChoice? || t.TRep? ==> C.Gen(t, opt, tt, fl) == C.Gen(t, opt, C.NoTest, fl)
    ensures t.TBehind? || t.TNot? ==> C.Gen(t, opt, tt, fl) == C.Gen(t, false, C.NoTest, Full)
    ensures t.TAnd? ==> C.Gen(t, opt, tt, fl) == C.Gen(t, false, tt, Full)
  {
    hide C.Gen;
    match t
    case TChoice(p1, p2) => C.GenChoice(p1, p2, opt, tt, fl); C.GenChoice(p1, p2, opt, C.NoTest, fl);
    case TRep(p) => C.GenRep(p, opt, tt, fl); C.GenRep(p, opt, C.NoTest, fl);
    case TBehind(p, n) => C.GenBehind(p, n, opt, tt, fl); C.GenBehind(p, n, false, C.NoTest, Full);
    case TNot(p) => C.GenNot(p, opt, tt, fl); C.GenNot(p, false, C.NoTest, Full);
    case TAnd(p) => C.GenAnd(p, opt, tt, fl); C.GenAnd(p, false, tt, Full);
    case _ =>
  }
}
