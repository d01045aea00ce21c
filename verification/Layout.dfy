/** Generated code is well laid out: it decodes instruction by instruction, every jump
    lands on an instruction, and chains of jumps end. */
module Layout {
  import opened Common
  import opened Peg
  import opened Analysis
  import opened Vm
  import opened Codegen
  import opened Fragments

  predicate IsJump(code: seq<Slot>, pc: int) {
    IsOp(code, pc) && code[pc].code == IJmp
  }

  predicate OpOrEnd(code: seq<Slot>, pc: int) {
    IsOp(code, pc) || pc == |code|
  }

  /** A jump goes forward, or back to an instruction that is not itself a jump back. */
  predicate JumpOk(code: seq<Slot>, pc: int)
    requires Decodes(code, pc) && HasLabel(code[pc].code)
  {
    var t := TargetOf(code, pc);
    t > pc || !IsJump(code, t) || (Decodes(code, t) && TargetOf(code, t) > pc)
  }

  /** The slots that belong to the instruction at `pc` are not instructions. */
  ghost predicate Solid(code: seq<Slot>, pc: int)
    requires IsOp(code, pc)
  {
    forall q :: pc < q < pc + Size(code[pc].code) ==> !IsOp(code, q)
  }

  ghost predicate TidyAt(code: seq<Slot>, pc: int) {
    && Decodes(code, pc)
    && Solid(code, pc)
    && code[pc].code != IEnd
    && OpOrEnd(code, pc + Size(code[pc].code))
    && (HasLabel(code[pc].code) ==> OpOrEnd(code, TargetOf(code, pc)))
    && (code[pc].code == IJmp ==> JumpOk(code, pc))
  }

  /** A relocatable fragment: control stays inside it or leaves at its end. */
  ghost predicate Tidy(code: seq<Slot>) {
    && OpOrEnd(code, 0)
    && forall pc :: IsOp(code, pc) ==> TidyAt(code, pc)
  }

  lemma OpInside(code: seq<Slot>, off: int, c: seq<Slot>, q: int)
    requires At(code, off, c) && OpOrEnd(code, off + |c|)
    ensures 0 <= q < |c| ==> code[off + q] == c[q]
    ensures OpOrEnd(c, q) ==> OpOrEnd(code, off + q)
    ensures 0 <= q < |c| ==> IsOp(code, off + q) == IsOp(c, q)
  {
    if 0 <= q < |c| { AtGet(code, off, c, q); }
  }

  lemma DecodesInside(code: seq<Slot>, off: int, c: seq<Slot>, q: int)
    requires At(code, off, c) && OpOrEnd(code, off + |c|) && Decodes(c, q)
    ensures Decodes(code, off + q) && code[off + q] == c[q]
    ensures HasLabel(c[q].code) ==> TargetOf(code, off + q) == off + TargetOf(c, q)
  {
    hide At, HasLabel, SetIndex;
    OpInside(code, off, c, q);
    OpInside(code, off, c, q + 1);
    OpInside(code, off, c, q + SetIndex(c[q].code));
  }

  lemma JumpInside(code: seq<Slot>, off: int, c: seq<Slot>, q: int)
    requires At(code, off, c) && OpOrEnd(code, off + |c|) && TidyAt(c, q) && c[q].code == IJmp
    ensures Decodes(code, off + q) && HasLabel(code[off + q].code) && JumpOk(code, off + q)
  {
    hide At, SetIndex;
    var t := TargetOf(c, q);
    DecodesInside(code, off, c, q);
    OpInside(code, off, c, t);
    if t <= q && IsJump(c, t) { DecodesInside(code, off, c, t); }
  }

  lemma DecodesLabel(c: seq<Slot>, q: int)
    requires Decodes(c, q) && HasLabel(c[q].code)
    ensures 0 <= q && q + 1 < |c| && c[q + 1].Offset?
  {
  }

  lemma SolidInside(code: seq<Slot>, off: int, c: seq<Slot>, q: int)
    requires At(code, off, c) && OpOrEnd(code, off + |c|) && IsOp(c, q) && Solid(c, q) &&
      OpOrEnd(c, q + Size(c[q].code))
    ensures IsOp(code, off + q) && Solid(code, off + q)
  {
    hide At, Size;
    OpInside(code, off, c, q);
    forall k | off + q < k < off + q + Size(c[q].code) ensures !IsOp(code, k) {
      OpInside(code, off, c, k - off);
    }
  }

  /** The instructions of a tidy fragment stay tidy inside larger code. */
  lemma TidyInside(code: seq<Slot>, off: int, c: seq<Slot>, pc: int)
    requires At(code, off, c) && Tidy(c) && OpOrEnd(code, off + |c|)
    requires off <= pc < off + |c| && IsOp(code, pc)
    ensures TidyAt(code, pc)
  {
    hide At, HasLabel, Size, Decodes, JumpOk, Solid, TargetOf;
    var q := pc - off;
    OpInside(code, off, c, q);
    assert TidyAt(c, q);
    DecodesInside(code, off, c, q);
    SolidInside(code, off, c, q);
    OpInside(code, off, c, q + Size(c[q].code));
    if HasLabel(c[q].code) {
      DecodesLabel(c, q);
      OpInside(code, off, c, TargetOf(c, q));
    }
    if c[q].code == IJmp { JumpInside(code, off, c, q); }
  }

  lemma {:induction false} AtAppend(a: seq<Slot>, b: seq<Slot>, c: seq<Slot>)
    ensures At(a + b + c, |a|, b)
  {
    assert (a + b + c)[|a|..|a| + |b|] == b;
  }

  lemma TidyConcat(a: seq<Slot>, b: seq<Slot>)
    requires Tidy(a) && Tidy(b)
    ensures Tidy(a + b)
  {
    hide At, TidyAt;
    var code := a + b;
    AtAppend([], a, b);
    assert [] + a + b == code;
    AtAppend(a, b, []);
    assert a + b + [] == code;
    assert OpOrEnd(b, 0);
    assert OpOrEnd(a, 0);
    forall pc | IsOp(code, pc) ensures TidyAt(code, pc) {
      if pc < |a| { TidyInside(code, 0, a, pc); } else { TidyInside(code, |a|, b, pc); }
    }
  }

  /** A labelled instruction, placed at `pc`, is tidy if its label and successor are. */
  lemma LabelledTidy(code: seq<Slot>, pc: int, op: Opcode, d: int)
    requires At(code, pc, Labelled(op, d)) && HasLabel(op) && op != ITestSet
    requires OpOrEnd(code, pc + 2) && OpOrEnd(code, pc + d)
    requires op == IJmp ==> d > 0 || !IsJump(code, pc + d) || (Decodes(code, pc + d) && TargetOf(code, pc + d) > pc)
    ensures TidyAt(code, pc) && !IsOp(code, pc + 1)
  {
    LabelledAt(code, pc, op, d);
  }

  lemma SimpleTidy(code: seq<Slot>, pc: int, op: Opcode, aux: int)
    requires At(code, pc, Simple(op, aux)) && !HasLabel(op) && SetIndex(op) == 0 && op != IEnd
    requires OpOrEnd(code, pc + 1)
    ensures TidyAt(code, pc)
  {
    AtGet(code, pc, Simple(op, aux), 0);
  }

  lemma TestTidy(code: seq<Slot>, pc: int, tt: Test, d: int)
    requires At(code, pc, TestCode(tt, d)) && d > 0
    requires OpOrEnd(code, pc + TestLen(tt)) && OpOrEnd(code, pc + d)
    ensures forall q :: pc <= q < pc + TestLen(tt) && IsOp(code, q) ==> TidyAt(code, q)
    ensures OpOrEnd(code, pc)
  {
    forall q | pc <= q < pc + TestLen(tt) ensures code[q] == TestCode(tt, d)[q - pc] {
      AtGet(code, pc, TestCode(tt, d), q - pc);
    }
  }

  /** Where a piece of code starts there is an instruction, if there is one where it ends. */
  lemma StartOp(code: seq<Slot>, off: int, c: seq<Slot>)
    requires At(code, off, c) && OpOrEnd(c, 0) && OpOrEnd(code, off + |c|)
    ensures OpOrEnd(code, off)
  {
    if c != [] { AtGet(code, off, c, 0); }
  }

  lemma LabelledStart(code: seq<Slot>, pc: int, op: Opcode, d: int)
    requires At(code, pc, Labelled(op, d))
    ensures IsOp(code, pc) && !IsOp(code, pc + 1) && code[pc].code == op
  {
    LabelledAt(code, pc, op, d);
  }

  lemma AtSelf(code: seq<Slot>)
    ensures At(code, 0, code)
  {
    assert code[0..|code|] == code;
  }

  lemma ChoiceByTestTidy(test: Test, c1: seq<Slot>, jump: bool, c2: seq<Slot>)
    requires Tidy(c1) && Tidy(c2)
    ensures Tidy(ChoiceByTestCode(test, c1, jump, c2))
  {
    hide At, TidyAt, TestCode, Labelled, TestLen, ChoiceByTestCode;
    var code := ChoiceByTestCode(test, c1, jump, c2);
    AtSelf(code);
    ChoiceByTestAt(code, 0, test, c1, jump, c2);
    var l0 := TestLen(test);
    var l1 := l0 + |c1|;
    var l2 := l1 + (if jump then 2 else 0);
    StartOp(code, l2, c2);
    if jump { LabelledStart(code, l1, IJmp, 2 + |c2|); }
    StartOp(code, l0, c1);
    if l2 > 0 { TestTidy(code, 0, test, l2); }
    forall pc | IsOp(code, pc) ensures TidyAt(code, pc) {
      if pc < l0 {
      } else if pc < l1 {
        TidyInside(code, l0, c1, pc);
      } else if pc < l2 {
        LabelledTidy(code, l1, IJmp, 2 + |c2|);
      } else {
        TidyInside(code, l2, c2, pc);
      }
    }
  }

  lemma OptionalTidy(c: seq<Slot>)
    requires Tidy(c)
    ensures Tidy(OptionalCode(c))
  {
    hide At, TidyAt, Labelled;
    var code := OptionalCode(c);
    AtSelf(code);
    AtSplit(code, 0, Labelled(IPartialCommit, 2), c);
    StartOp(code, 2, c);
    LabelledTidy(code, 0, IPartialCommit, 2);
    LabelledStart(code, 0, IPartialCommit, 2);
    forall pc | IsOp(code, pc) ensures TidyAt(code, pc) {
      if pc >= 2 { TidyInside(code, 2, c, pc); }
    }
  }

  lemma ChoiceTidy(test: Test, c1: seq<Slot>, c2: seq<Slot>)
    requires Tidy(c1) && Tidy(c2)
    ensures Tidy(ChoiceCode(test, c1, c2))
  {
    hide At, TidyAt, TestCode, Labelled, TestLen, ChoiceCode;
    var code := ChoiceCode(test, c1, c2);
    AtSelf(code);
    ChoiceAt(code, 0, test, c1, c2);
    var l0 := TestLen(test);
    var l1 := l0 + 2 + |c1|;
    var l2 := l1 + 2;
    StartOp(code, l2, c2);
    LabelledStart(code, l1, ICommit, 2 + |c2|);
    StartOp(code, l0 + 2, c1);
    LabelledStart(code, l0, IChoice, |c1| + 4);
    TestTidy(code, 0, test, l2);
    LabelledTidy(code, l0, IChoice, |c1| + 4);
    LabelledTidy(code, l1, ICommit, 2 + |c2|);
    forall pc | IsOp(code, pc) ensures TidyAt(code, pc) {
      if l0 + 2 <= pc < l1 {
        TidyInside(code, l0 + 2, c1, pc);
      } else if l2 <= pc {
        TidyInside(code, l2, c2, pc);
      }
    }
  }

  lemma SpanTidy(cs: Charset)
    ensures Tidy(SpanCode(cs))
  {
  }

  lemma RepByTestTidy(test: Test, c: seq<Slot>)
    requires Tidy(c) && !test.NoTest?
    ensures Tidy(RepByTestCode(test, c))
  {
    hide At, TidyAt, Labelled, TestLen, RepByTestCode, Decodes;
    var code := RepByTestCode(test, c);
    AtSelf(code);
    RepByTestAt(code, 0, test, c);
    var l0 := TestLen(test);
    var l1 := l0 + |c|;
    LabelledStart(code, l1, IJmp, -l1);
    StartOp(code, l0, c);
    TestTidy(code, 0, test, l1 + 2);
    TestStart(code, 0, test, l1 + 2);
    LabelledTidy(code, l1, IJmp, -l1);
    forall pc | IsOp(code, pc) ensures TidyAt(code, pc) {
      if l0 <= pc < l1 { TidyInside(code, l0, c, pc); }
    }
  }

  /** A test at the head of a loop is not a jump, or is a jump out of the loop. */
  lemma TestStart(code: seq<Slot>, pc: int, tt: Test, d: int)
    requires At(code, pc, TestCode(tt, d)) && !tt.NoTest?
    ensures IsOp(code, pc)
    ensures IsJump(code, pc) ==> Decodes(code, pc) && TargetOf(code, pc) == pc + d
  {
    AtGet(code, pc, TestCode(tt, d), 0);
    AtGet(code, pc, TestCode(tt, d), 1);
  }

  lemma RepTidy(test: Test, opt: bool, c: seq<Slot>)
    requires Tidy(c)
    ensures Tidy(RepCode(test, opt, c))
  {
    hide At, TidyAt, TestCode, Labelled, TestLen, RepCode;
    var code := RepCode(test, opt, c);
    AtSelf(code);
    RepAt(code, 0, test, opt, c);
    var l0 := TestLen(test);
    var l1 := l0 + 2 + |c|;
    LabelledStart(code, l1, IPartialCommit, -|c|);
    StartOp(code, l0 + 2, c);
    if opt {
      LabelledStart(code, l0, IPartialCommit, 2);
      LabelledTidy(code, l0, IPartialCommit, 2);
    } else {
      LabelledStart(code, l0, IChoice, |c| + 4);
      LabelledTidy(code, l0, IChoice, |c| + 4);
    }
    TestTidy(code, 0, test, l1 + 2);
    LabelledTidy(code, l1, IPartialCommit, -|c|);
    forall pc | IsOp(code, pc) ensures TidyAt(code, pc) {
      if l0 + 2 <= pc < l1 { TidyInside(code, l0 + 2, c, pc); }
    }
  }

  lemma NotByTestTidy(test: Test)
    ensures Tidy(NotByTestCode(test))
  {
    hide At, TidyAt, TestCode, Labelled, TestLen;
    var code := NotByTestCode(test);
    AtSelf(code);
    AtSplit(code, 0, TestCode(test, TestLen(test) + 1), Simple(IFail, 0));
    AtGet(code, TestLen(test), Simple(IFail, 0), 0);
    TestTidy(code, 0, test, TestLen(test) + 1);
    SimpleTidy(code, TestLen(test), IFail, 0);
  }

  lemma NotTidy(test: Test, c: seq<Slot>)
    requires Tidy(c)
    ensures Tidy(NotCode(test, c))
  {
    hide At, TidyAt, TestCode, Labelled, TestLen, NotCode;
    var code := NotCode(test, c);
    AtSelf(code);
    NotAt(code, 0, test, c);
    var l0 := TestLen(test);
    var l1 := l0 + 2 + |c|;
    AtGet(code, l1, Simple(IFailTwice, 0), 0);
    SimpleTidy(code, l1, IFailTwice, 0);
    StartOp(code, l0 + 2, c);
    LabelledStart(code, l0, IChoice, |c| + 3);
    LabelledTidy(code, l0, IChoice, |c| + 3);
    TestTidy(code, 0, test, l1 + 1);
    forall pc | IsOp(code, pc) ensures TidyAt(code, pc) {
      if l0 + 2 <= pc < l1 { TidyInside(code, l0 + 2, c, pc); }
    }
  }

  lemma AndTidy(c: seq<Slot>)
    requires Tidy(c)
    ensures Tidy(AndCode(c))
  {
    hide At, TidyAt, Labelled;
    var code := AndCode(c);
    AtSelf(code);
    AtSplit4(code, 0, Labelled(IChoice, |c| + 4), c, Labelled(IBackCommit, 3), Simple(IFail, 0));
    var l1 := 2 + |c|;
    AtGet(code, l1 + 2, Simple(IFail, 0), 0);
    SimpleTidy(code, l1 + 2, IFail, 0);
    LabelledStart(code, l1, IBackCommit, 3);
    LabelledTidy(code, l1, IBackCommit, 3);
    StartOp(code, 2, c);
    LabelledStart(code, 0, IChoice, |c| + 4);
    LabelledTidy(code, 0, IChoice, |c| + 4);
    forall pc | IsOp(code, pc) ensures TidyAt(code, pc) {
      if 2 <= pc < l1 { TidyInside(code, 2, c, pc); }
    }
  }

  lemma BehindTidy(n: int)
    ensures Tidy(CodeBehind(n))
  {
  }

  lemma OneCharTidy(g: seq<Slot>, cs: Charset, tt: Test)
    requires OneCharCode(g, cs, tt)
    ensures Tidy(g)
  {
  }

  /** Every pattern compiles to a tidy fragment. */
  lemma {:induction false} GenTidy(t: Tree, opt: bool, tt: Test, fl: Charset)
    ensures Tidy(Gen(t, opt, tt, fl))
  {
    hide Tidy, TestFor, ChoiceByTestCode, ChoiceCode, OptionalCode, RepByTestCode, RepCode, NotCode, NotByTestCode,
         AndCode, CodeBehind, OneCharCode;
    match t
    case TChar(c) => SingleTidy(t, opt, tt, fl);
    case TAny => SingleTidy(t, opt, tt, fl);
    case TSet(cs) => SingleTidy(t, opt, tt, fl);
    case TTrue => EmptyTidy();
    case TFalse => OneCharTidy(Simple(IFail, 0), {}, NoTest);
    case TSeq(p1, p2) =>
      GenTidy(p1, false, tt, FollowIn(p1, p2, fl));
      GenTidy(p2, opt, TestAfter(p1, tt), fl);
      TidyConcat(Gen(p1, false, tt, FollowIn(p1, p2, fl)), Gen(p2, opt, TestAfter(p1, tt), fl));
    case TChoice(p1, p2) =>
      GenTidy(p2, opt, NoTest, fl);
      var f1 := GetFirst(p1, Full);
      if ChoiceByTest(p1, p2, fl) {
        var test := TestFor(f1.cs, false);
        GenTidy(p1, false, test, fl);
        ChoiceByTestTidy(test, Gen(p1, false, test, fl), !p2.TTrue?, Gen(p2, opt, NoTest, fl));
      } else if opt && p2.TTrue? {
        GenTidy(p1, true, NoTest, Full);
        OptionalTidy(Gen(p1, true, NoTest, Full));
      } else {
        var test := TestFor(f1.cs, f1.e);
        GenTidy(p1, p2.TTrue?, test, Full);
        ChoiceTidy(test, Gen(p1, p2.TTrue?, test, Full), Gen(p2, opt, NoTest, fl));
      }
    case TRep(p) =>
      var f := GetFirst(p, Full);
      if ToCharset(p).Some? {
        SpanTidy(ToCharset(p).value);
      } else if RepByTest(p, fl) {
        var test := TestFor(f.cs, false);
        TestForSet(f.cs, false);
        GenTidy(p, false, test, Full);
        RepByTestTidy(test, Gen(p, false, test, Full));
      } else {
        GenTidy(p, false, NoTest, Full);
        RepTidy(TestFor(f.cs, f.e), opt, Gen(p, false, NoTest, Full));
      }
    case TNot(p) =>
      var f := GetFirst(p, Full);
      NotByTestTidy(TestFor(f.cs, f.e));
      GenTidy(p, false, NoTest, Full);
      NotTidy(TestFor(f.cs, f.e), Gen(p, false, NoTest, Full));
    case TAnd(p) =>
      GenTidy(p, false, tt, Full);
      AndTidy(Gen(p, false, tt, Full));
      BehindTidy(FixedLen(p));
      TidyConcat(Gen(p, false, tt, Full), CodeBehind(FixedLen(p)));
    case TBehind(p, n) =>
      GenTidy(p, false, NoTest, Full);
      BehindTidy(n);
      TidyConcat(CodeBehind(n), Gen(p, false, NoTest, Full));
  }

  lemma EmptyTidy()
    ensures Tidy([])
  {
  }

  lemma SingleTidy(t: Tree, opt: bool, tt: Test, fl: Charset)
    requires ToCharset(t).Some?
    ensures Tidy(Gen(t, opt, tt, fl))
  {
    hide Tidy;
    OneCharTidy(Gen(t, opt, tt, fl), ToCharset(t).value, tt);
  }
}
