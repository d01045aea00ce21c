/** The code generator of lpcode.c as a function from trees to relocatable code. */
module Codegen {
  import opened Common
  import opened Peg
  import opened Analysis
  import opened Vm

  datatype CharsetKind = KFail | KChar(c: Byte) | KAny | KSet

  function Least(cs: Charset, k: nat): (c: Byte)
    requires k < 256
    requires exists c :: c in cs && k <= c
    ensures c in cs
    decreases 256 - k
  {
    if k in cs then k else Least(cs, k + 1)
  }

  /** `charsettype`: empty, singleton, full, or none of those. */
  function CharsetType(cs: Charset): CharsetKind {
    if cs == {} then KFail
    else
      var c := (assert exists c :: c in cs; Least(cs, 0));
      if cs == {c} then KChar(c) else if cs == Full then KAny else KSet
  }

  /** The test instruction that dominates some code, if any. `JmpTest` is the plain jump
      emitted for an empty set. */
  datatype Test = NoTest | JmpTest | AnyTest | CharTest(c: Byte) | SetTest(cs: Charset)

  function SetSlots(cs: Charset): (r: seq<Slot>)
    ensures |r| == CHARSETINSTSIZE - 1
  {
    [Buff(cs), Pad, Pad, Pad, Pad, Pad, Pad, Pad]
  }

  function Simple(op: Opcode, aux: int): (r: seq<Slot>)
    ensures |r| == 1
  {
    [Inst(op, aux % 256)]
  }

  function Labelled(op: Opcode, d: int): (r: seq<Slot>)
    ensures |r| == 2
  {
    [Inst(op, 0), Offset(d)]
  }

  function CodeChar(c: Byte, tt: Test): seq<Slot> {
    if tt == CharTest(c) then Simple(IAny, 0) else Simple(IChar, c)
  }

  function CodeCharset(cs: Charset, tt: Test): seq<Slot> {
    match CharsetType(cs)
    case KChar(c) => CodeChar(c, tt)
    case KSet => if tt == SetTest(cs) then Simple(IAny, 0) else Simple(ISet, 0) + SetSlots(cs)
    case KFail => Simple(IFail, 0)
    case KAny => Simple(IAny, 0)
  }

  /** Which test `codetestset` emits for a set; `e`: the pattern accepts the empty subject. */
  function TestFor(cs: Charset, e: bool): Test {
    if e then NoTest
    else match CharsetType(cs)
      case KFail => JmpTest
      case KAny => AnyTest
      case KChar(c) => CharTest(c)
      case KSet => SetTest(cs)
  }

  /** No test is emitted in front of a pattern that cannot fail. */
  lemma NoFailNoTest(t: Tree, follow: Charset)
    requires NoFail(t)
    ensures var f := GetFirst(t, follow); TestFor(f.cs, f.e) == NoTest
  {
    NoFailEmpty(t, follow);
  }

  function TestLen(tt: Test): nat {
    match tt
    case NoTest => 0
    case SetTest(_) => CHARSETINSTSIZE + 1
    case _ => 2
  }

  /** The code of a test that jumps by `d` when the character is refused. */
  function TestCode(tt: Test, d: int): (r: seq<Slot>)
    ensures |r| == TestLen(tt)
  {
    match tt
    case NoTest => []
    case JmpTest => Labelled(IJmp, d)
    case AnyTest => Labelled(ITestAny, d)
    case CharTest(c) => [Inst(ITestChar, c), Offset(d)]
    case SetTest(cs) => Labelled(ITestSet, d) + SetSlots(cs)
  }

  function CodeBehind(n: int): seq<Slot> {
    if n > 0 then Simple(IBehind, n) else []
  }

  predicate Disjoint(a: Charset, b: Charset) { a * b == {} }

  /** Whether `codechoice` can select an alternative by its first character alone. */
  predicate ChoiceByTest(p1: Tree, p2: Tree, fl: Charset) {
    var f1 := GetFirst(p1, Full);
    HeadFail(p1) || (!f1.e && Disjoint(f1.cs, GetFirst(p2, fl).cs))
  }

  predicate RepByTest(p: Tree, fl: Charset) {
    var f := GetFirst(p, Full);
    HeadFail(p) || (!f.e && Disjoint(f.cs, fl))
  }

  predicate AndByBehind(p: Tree) { 0 <= FixedLen(p) <= MAXBEHIND }

  function FollowIn(p1: Tree, p2: Tree, fl: Charset): Charset {
    if NeedFollow(p1) then GetFirst(p2, fl).cs else Full
  }

  function TestAfter(p1: Tree, tt: Test): Test {
    if FixedLen(p1) != 0 then NoTest else tt
  }

  // ----- layouts -----

  /** test -> L1; c1; jmp L2; L1: c2; L2:   (no jump when there is nothing after L1) */
  function ChoiceByTestCode(test: Test, c1: seq<Slot>, jump: bool, c2: seq<Slot>): (r: seq<Slot>)
    ensures |r| == TestLen(test) + |c1| + (if jump then 2 else 0) + |c2|
  {
    var jmp := if jump then Labelled(IJmp, 2 + |c2|) else [];
    TestCode(test, TestLen(test) + |c1| + |jmp|) + c1 + jmp + c2
  }

  /** partialcommit; c */
  function OptionalCode(c: seq<Slot>): (r: seq<Slot>)
    ensures |r| == 2 + |c|
  {
    Labelled(IPartialCommit, 2) + c
  }

  /** test -> L1; choice L1; c1; commit L2; L1: c2; L2: */
  function ChoiceCode(test: Test, c1: seq<Slot>, c2: seq<Slot>): (r: seq<Slot>)
    ensures |r| == TestLen(test) + |c1| + 4 + |c2|
  {
    TestCode(test, TestLen(test) + |c1| + 4) + (Labelled(IChoice, |c1| + 4) + c1
    + Labelled(ICommit, 2 + |c2|) + c2)
  }

  function SpanCode(cs: Charset): (r: seq<Slot>)
    ensures |r| == CHARSETINSTSIZE
  {
    Simple(ISpan, 0) + SetSlots(cs)
  }

  /** L1: test -> L2; c; jmp L1; L2: */
  function RepByTestCode(test: Test, c: seq<Slot>): (r: seq<Slot>)
    ensures |r| == TestLen(test) + |c| + 2
  {
    TestCode(test, TestLen(test) + |c| + 2) + c + Labelled(IJmp, -(TestLen(test) + |c|))
  }

  /** test -> L2; choice L2; L1: c; partialcommit L1; L2:   (with `opt`, partialcommit L1 for the choice) */
  function RepCode(test: Test, opt: bool, c: seq<Slot>): (r: seq<Slot>)
    ensures |r| == TestLen(test) + |c| + 4
  {
    TestCode(test, TestLen(test) + |c| + 4)
    + (if opt then Labelled(IPartialCommit, 2) else Labelled(IChoice, |c| + 4))
    + c + Labelled(IPartialCommit, -|c|)
  }

  /** test -> L1; fail; L1: */
  function NotByTestCode(test: Test): (r: seq<Slot>)
    ensures |r| == TestLen(test) + 1
  {
    TestCode(test, TestLen(test) + 1) + Simple(IFail, 0)
  }

  /** test -> L1; choice L1; c; failtwice; L1: */
  function NotCode(test: Test, c: seq<Slot>): (r: seq<Slot>)
    ensures |r| == TestLen(test) + |c| + 3
  {
    TestCode(test, TestLen(test) + |c| + 3) + Labelled(IChoice, |c| + 3) + c + Simple(IFailTwice, 0)
  }

  /** choice L1; c; backcommit L2; L1: fail; L2: */
  function AndCode(c: seq<Slot>): (r: seq<Slot>)
    ensures |r| == |c| + 5
  {
    Labelled(IChoice, |c| + 4) + c + Labelled(IBackCommit, 3) + Simple(IFail, 0)
  }

  /** `codegen`. `opt`: the code ends an optional pattern and may reuse its choice entry;
      `tt`: the test that protects the code; `fl`: the follow set. */
  function Gen(t: Tree, opt: bool, tt: Test, fl: Charset): seq<Slot> {
    match t
    case TChar(c) => CodeChar(c, tt)
    case TAny => Simple(IAny, 0)
    case TSet(cs) => CodeCharset(cs, tt)
    case TTrue => []
    case TFalse => Simple(IFail, 0)
    case TChoice(p1, p2) =>
      var f1 := GetFirst(p1, Full);
      if ChoiceByTest(p1, p2, fl) then
        var test := TestFor(f1.cs, false);
        ChoiceByTestCode(test, Gen(p1, false, test, fl), !p2.TTrue?, Gen(p2, opt, NoTest, fl))
      else if opt && p2.TTrue? then
        OptionalCode(Gen(p1, true, NoTest, Full))
      else
        var test := TestFor(f1.cs, f1.e);
        ChoiceCode(test, Gen(p1, p2.TTrue?, test, Full), Gen(p2, opt, NoTest, fl))
    case TRep(p) =>
      var cs := ToCharset(p);
      if cs.Some? then SpanCode(cs.value)
      else
        var f := GetFirst(p, Full);
        if RepByTest(p, fl) then
          var test := TestFor(f.cs, false);
          RepByTestCode(test, Gen(p, false, test, Full))
        else
          RepCode(TestFor(f.cs, f.e), opt, Gen(p, false, NoTest, Full))
    case TBehind(p, n) => CodeBehind(n) + Gen(p, false, NoTest, Full)
    case TNot(p) =>
      var f := GetFirst(p, Full);
      var test := TestFor(f.cs, f.e);
      if HeadFail(p) then NotByTestCode(test) else NotCode(test, Gen(p, false, NoTest, Full))
    case TAnd(p) =>
      if AndByBehind(p) then Gen(p, false, tt, Full) + CodeBehind(FixedLen(p))
      else AndCode(Gen(p, false, tt, Full))
    case TSeq(p1, p2) =>
      Gen(p1, false, tt, FollowIn(p1, p2, fl)) + Gen(p2, opt, TestAfter(p1, tt), fl)
  }

  // ----- the cases of Gen, one equation each -----

  lemma GenBehind(p: Tree, n: nat, opt: bool, tt: Test, fl: Charset)
    ensures Gen(TBehind(p, n), opt, tt, fl) == CodeBehind(n) + Gen(p, false, NoTest, Full)
  {
  }

  lemma GenSeq(p1: Tree, p2: Tree, opt: bool, tt: Test, fl: Charset)
    ensures Gen(TSeq(p1, p2), opt, tt, fl)
      == Gen(p1, false, tt, FollowIn(p1, p2, fl)) + Gen(p2, opt, TestAfter(p1, tt), fl)
  {
  }

  lemma GenChoice(p1: Tree, p2: Tree, opt: bool, tt: Test, fl: Charset)
    ensures var f1 := GetFirst(p1, Full);
      Gen(TChoice(p1, p2), opt, tt, fl) ==
      if ChoiceByTest(p1, p2, fl) then
        var test := TestFor(f1.cs, false);
        ChoiceByTestCode(test, Gen(p1, false, test, fl), !p2.TTrue?, Gen(p2, opt, NoTest, fl))
      else if opt && p2.TTrue? then
        OptionalCode(Gen(p1, true, NoTest, Full))
      else
        var test := TestFor(f1.cs, f1.e);
        ChoiceCode(test, Gen(p1, p2.TTrue?, test, Full), Gen(p2, opt, NoTest, fl))
  {
    hide ChoiceByTest, TestFor, GetFirst, ChoiceByTestCode, ChoiceCode, OptionalCode;
  }

  lemma GenRep(p: Tree, opt: bool, tt: Test, fl: Charset)
    ensures var f := GetFirst(p, Full);
      Gen(TRep(p), opt, tt, fl) ==
      if ToCharset(p).Some? then SpanCode(ToCharset(p).value)
      else if RepByTest(p, fl) then
        RepByTestCode(TestFor(f.cs, false), Gen(p, false, TestFor(f.cs, false), Full))
      else RepCode(TestFor(f.cs, f.e), opt, Gen(p, false, NoTest, Full))
  {
    hide RepByTest, TestFor, GetFirst, RepByTestCode, RepCode, SpanCode;
  }

  lemma GenNot(p: Tree, opt: bool, tt: Test, fl: Charset)
    ensures var f := GetFirst(p, Full);
      var test := TestFor(f.cs, f.e);
      Gen(TNot(p), opt, tt, fl) ==
      if HeadFail(p) then NotByTestCode(test) else NotCode(test, Gen(p, false, NoTest, Full))
  {
    hide TestFor, GetFirst, NotCode, NotByTestCode;
  }

  lemma GenAnd(p: Tree, opt: bool, tt: Test, fl: Charset)
    ensures Gen(TAnd(p), opt, tt, fl) ==
      if AndByBehind(p) then Gen(p, false, tt, Full) + CodeBehind(FixedLen(p))
      else AndCode(Gen(p, false, tt, Full))
  {
    hide AndCode;
  }

  /** Backtrack entries a match of `t` can have on the stack at once. */
  function StackNeed(t: Tree): nat {
    match t
    case TChoice(p1, p2) => Max(1 + StackNeed(p1), StackNeed(p2))
    case TSeq(p1, p2) => Max(StackNeed(p1), StackNeed(p2))
    case TRep(p) => 1 + StackNeed(p)
    case TNot(p) => 1 + StackNeed(p)
    case TAnd(p) => 1 + StackNeed(p)
    case TBehind(p, _) => StackNeed(p)
    case _ => 0
  }
}
