/** Compiling a pattern and matching with it: the whole path from tree to result. */
module Matcher {
  import opened Common
  import opened Peg
  import opened Analysis
  import opened Vm
  import opened Codegen
  import opened Fragments
  import opened CodegenCorrect
  import opened Layout
  import opened Jumps
  import opened Compiler
  import FlatTree

  /** The state in which `match` starts: a stack that holds the giveup entry. */
  function Start(i: nat): State {
    Run(0, i, [Entry(GIVEUP, i)])
  }

  function Outcome(r: Option<nat>): State {
    match r
    case Some(j) => Matched(j)
    case None => GaveUp
  }

  /** Code before jump optimization. */
  function RawCode(t: Tree): seq<Slot> {
    Gen(t, false, NoTest, Full) + [Inst(IEnd, 0)]
  }

  lemma RawClosed(t: Tree)
    ensures Closed(RawCode(t))
  {
    GenTidy(t, false, NoTest, Full);
    CloseTidy(Gen(t, false, NoTest, Full));
  }

  lemma RawRuns(t: Tree, s: Subject, i: nat, limit: nat)
    requires WellFormed(t) && i <= |s| && 1 + StackNeed(t) <= limit
    ensures Machine(RawCode(t), s, limit).Reaches(Start(i), Outcome(Match(t, s, i)))
  {
    hide Machine.Reaches, Gen, Meets, StackNeed, WellFormed;
    var g := Gen(t, false, NoTest, Full);
    var m := Machine(RawCode(t), s, limit);
    var st := [Entry(GIVEUP, i)];
    AtAppend([], g, [Inst(IEnd, 0)]);
    assert [] + g + [Inst(IEnd, 0)] == m.code;
    GenCorrect(m, t, false, NoTest, Full, 0, i, st);
    MeetsExact(m, Start(i), Match(t, s, i), |g|, st);
    var b := if Match(t, s, i).Some? then Run(|g|, Match(t, s, i).value, st) else Backtrack(st);
    assert Pop(st) == [];
    m.One(b);
    m.Trans(Start(i), b, Outcome(Match(t, s, i)));
  }

  /** Optimized code finds what the pattern means. */
  lemma CompiledRuns(t: Tree, c: seq<Slot>, s: Subject, i: nat, limit: nat)
    requires WellFormed(t) && i <= |s| && 1 + StackNeed(t) <= limit
    requires Closed(RawCode(t)) && Linked(RawCode(t), c)
    ensures Machine(c, s, limit).Reaches(Start(i), Outcome(Match(t, s, i)))
  {
    hide Gen, Linked, StackNeed, WellFormed, Machine.Step;
    var o := Machine(RawCode(t), s, limit);
    RawRuns(t, s, i, limit);
    var n: nat :| o.StepN(Start(i), n) == Outcome(Match(t, s, i));
    assert Rel(o.code, Start(i), Start(i));
    LinkedRuns(o, Machine(c, s, limit), Start(i), Start(i), n);
  }

  /** With a smaller stack the run is the same, unless it overflows. */
  lemma {:induction false} SmallerStack(big: Machine, small: Machine, a: State, n: nat)
    requires small == big.(limit := small.limit) && small.limit <= big.limit
    requires !big.StepN(a, n).Run? && big.StepN(a, n) != Overflow
    ensures small.Reaches(a, big.StepN(a, n)) || small.Reaches(a, Overflow)
    decreases n
  {
    hide Machine.Reaches, Machine.Step;
    if n == 0 || !a.Run? {
      StaysDone(big, a, n);
      small.Refl(a);
    } else {
      SmallerStep(big, small, a);
      if small.Step(a) == Overflow {
        small.One(a);
      } else {
        SmallerStack(big, small, big.Step(a), n - 1);
        if small.Reaches(big.Step(a), big.StepN(a, n)) { small.Then(a, big.StepN(a, n)); }
        else { small.Then(a, Overflow); }
      }
    }
  }

  lemma SmallerStep(big: Machine, small: Machine, a: State)
    requires small == big.(limit := small.limit) && small.limit <= big.limit
    ensures small.Step(a) == Overflow || small.Step(a) == big.Step(a)
  {
  }

  /** The promise of compiled code: for every subject, start and stack limit the machine
      halts with the result of the pattern, or, if the limit is too small for the nesting of
      the pattern, possibly with a stack overflow. */
  ghost predicate Implements(c: seq<Slot>, t: Tree) {
    forall s: Subject, i: nat, limit: nat :: i <= |s| ==> Computes(c, t, s, i, limit)
  }

  ghost predicate Computes(c: seq<Slot>, t: Tree, s: Subject, i: nat, limit: nat)
    requires i <= |s|
  {
    var m := Machine(c, s, limit);
    || m.Reaches(Start(i), Outcome(Match(t, s, i)))
    || (limit < 1 + StackNeed(t) && m.Reaches(Start(i), Overflow))
  }

  lemma CompileCorrect(t: Tree, c: seq<Slot>)
    requires WellFormed(t)
    requires Closed(RawCode(t)) && Linked(RawCode(t), c)
    ensures Implements(c, t)
  {
    hide Machine.Reaches, RawCode, Linked, Closed, StackNeed, WellFormed, Match, Outcome, Machine.Step;
    forall s: Subject, i: nat, limit: nat | i <= |s| ensures Computes(c, t, s, i, limit) {
      CompileCorrectFor(t, c, s, i, limit);
    }
  }

  lemma CompileCorrectFor(t: Tree, c: seq<Slot>, s: Subject, i: nat, limit: nat)
    requires WellFormed(t) && i <= |s|
    requires Closed(RawCode(t)) && Linked(RawCode(t), c)
    ensures Computes(c, t, s, i, limit)
  {
    hide RawCode, Linked, Closed, StackNeed, WellFormed, Match, Machine.Step;
    var need := 1 + StackNeed(t);
    var big := Machine(c, s, if limit < need then need else limit);
    CompiledRuns(t, c, s, i, big.limit);
    if limit < need {
      var n: nat :| big.StepN(Start(i), n) == Outcome(Match(t, s, i));
      SmallerStack(big, Machine(c, s, limit), Start(i), n);
    }
  }

  /** `compile`. */
  method Compile(t: Tree) returns (code: seq<Slot>)
    requires WellFormed(t)
    ensures Implements(code, t)
  {
    hide Gen, Linked, Closed, Implements;
    var cs := new CompileState();
    NoTestAt(cs.code);
    cs.CodeGen(t, false, NOINST, Full);
    assert [] + Gen(t, false, NoTest, Full) == Gen(t, false, NoTest, Full);
    var _ := cs.AddInstruction(IEnd, 0);
    RawClosed(t);
    cs.Peephole(RawCode(t));
    code := cs.code;
    CompileCorrect(t, code);
  }

  method SpanFrom(cs: Charset, s: Subject, i: nat) returns (j: nat)
    requires i <= |s|
    ensures j == Span(cs, s, i)
  {
    j := i;
    while j < |s|
      invariant i <= j <= |s| && Span(cs, s, j) == Span(cs, s, i)
    {
      if s[j] !in cs { break; }
      j := j + 1;
    }
  }

  /** The interpreter loop of lpvm.c. `n` bounds the number of turns. */
  method RunMachine(op: seq<Slot>, s: Subject, i: nat, limit: nat, ghost n: nat) returns (r: State)
    requires i <= |s|
    requires !Machine(op, s, limit).StepN(Start(i), n).Run?
    ensures r == Machine(op, s, limit).StepN(Start(i), n)
  {
    ghost var m := Machine(op, s, limit);
    var p, stack := 0, [Entry(GIVEUP, i)];
    var pos: nat := i;
    ghost var k := 0;
    while true
      invariant 0 <= k <= n && m.StepN(Start(i), k) == Run(p, pos, stack)
      decreases n - k
    {
      ghost var st := Run(p, pos, stack);
      NextTurn(m, Start(i), k, n);
      k := k + 1;
      if p == GIVEUP {
        r := if stack == [] then GaveUp else Crash;
        Halts(m, Start(i), k, n);
        return;
      }
      if !Decodes(op, p) || pos > |s| {
        r := Crash;
        Halts(m, Start(i), k, n);
        return;
      }
      var inst := op[p].code;
      var failed := false;
      match inst {
        case IAny =>
          if pos < |s| { p, pos := p + 1, pos + 1; } else { failed := true; }
        case IChar =>
          if pos < |s| && s[pos] == op[p].aux { p, pos := p + 1, pos + 1; } else { failed := true; }
        case ISet =>
          if pos < |s| && s[pos] in op[p + 1].cs { p, pos := p + CHARSETINSTSIZE, pos + 1; } else { failed := true; }
        case ITestAny =>
          p := if pos < |s| then p + 2 else p + op[p + 1].off;
        case ITestChar =>
          p := if pos < |s| && s[pos] == op[p].aux then p + 2 else p + op[p + 1].off;
        case ITestSet =>
          p := if pos < |s| && s[pos] in op[p + 2].cs then p + 1 + CHARSETINSTSIZE else p + op[p + 1].off;
        case IBehind =>
          if op[p].aux > pos { failed := true; } else { p, pos := p + 1, pos - op[p].aux; }
        case ISpan =>
          pos := SpanFrom(op[p + 1].cs, s, pos);
          p := p + CHARSETINSTSIZE;
        case IJmp =>
          p := p + op[p + 1].off;
        case IChoice =>
          if |stack| >= limit {
            r := Overflow;
            Halts(m, Start(i), k, n);
            return;
          }
          stack := stack + [Entry(p + op[p + 1].off, pos)];
          p := p + 2;
        case IEnd =>
          r := if |stack| == 1 then Matched(pos) else Crash;
          Halts(m, Start(i), k, n);
          return;
        case ICommit =>
          if stack == [] {
            r := Crash;
            Halts(m, Start(i), k, n);
            return;
          }
          stack := stack[..|stack| - 1];
          p := p + op[p + 1].off;
        case IPartialCommit =>
          if stack == [] {
            r := Crash;
            Halts(m, Start(i), k, n);
            return;
          }
          stack := stack[..|stack| - 1] + [Entry(stack[|stack| - 1].pc, pos)];
          p := p + op[p + 1].off;
        case IBackCommit =>
          if stack == [] {
            r := Crash;
            Halts(m, Start(i), k, n);
            return;
          }
          pos := stack[|stack| - 1].pos;
          stack := stack[..|stack| - 1];
          p := p + op[p + 1].off;
        case IFailTwice =>
          if stack == [] {
            r := Crash;
            Halts(m, Start(i), k, n);
            return;
          }
          stack := stack[..|stack| - 1];
          failed := true;
        case IFail =>
          failed := true;
      }
      if failed {
        if stack == [] {
          r := Crash;
          Halts(m, Start(i), k, n);
          return;
        }
        var top := stack[|stack| - 1];
        p, pos, stack := top.pc, top.pos, stack[..|stack| - 1];
      }
      assert m.Step(st) == Run(p, pos, stack);
    }
  }

  lemma NextTurn(m: Machine, a: State, k: nat, n: nat)
    requires k <= n && m.StepN(a, k).Run? && !m.StepN(a, n).Run?
    ensures k < n && m.StepN(a, k + 1) == m.Step(m.StepN(a, k))
  {
    m.StepNAdd(a, k, 1);
    assert m.StepN(m.StepN(a, k), 1) == m.StepN(m.Step(m.StepN(a, k)), 0);
  }

  lemma Halts(m: Machine, a: State, k: nat, n: nat)
    requires k <= n && !m.StepN(a, k).Run?
    ensures m.StepN(a, n) == m.StepN(a, k)
  {
    m.StepNAdd(a, k, n - k);
    StaysDone(m, m.StepN(a, k), n - k);
  }

  /** Matching a compiled pattern gives its PEG meaning. */
  method MatchPattern(code: seq<Slot>, s: Subject, i: nat, limit: nat, ghost t: Tree) returns (r: State)
    requires Implements(code, t) && i <= |s|
    ensures r == Outcome(Match(t, s, i)) || r == Overflow
    ensures limit >= 1 + StackNeed(t) ==> r == Outcome(Match(t, s, i))
  {
    hide Match, StackNeed, Machine.Step;
    ghost var m := Machine(code, s, limit);
    assert Computes(code, t, s, i, limit);
    ghost var n: nat :| m.StepN(Start(i), n) == Outcome(Match(t, s, i))
                        || (limit < 1 + StackNeed(t) && m.StepN(Start(i), n) == Overflow);
    r := RunMachine(code, s, i, limit, n);
  }

  /** `initposition`: positions count from 1, negative ones from the end of the subject. */
  function InitPosition(ii: int, len: nat): (i: nat)
    ensures i <= len
    ensures 1 <= ii <= len ==> i == ii - 1
    ensures -(len as int) <= ii < 0 ==> i == len + ii
    ensures ii > len || ii == 0 ==> i == len
    ensures ii < -(len as int) ==> i == 0
  {
    if ii > 0 then (if ii <= len then ii - 1 else len)
    else if -ii <= len then len + ii else 0
  }

  /** `lp_match` on a pattern that has not been compiled: `finalfix`, `compile` and `match` together give
      the PEG meaning of the pattern, unless its nesting exceeds the stack limit. A start behind the subject, or 0, is
      the end of the subject, and one that is too far before the end is its beginning. */
  method LpMatch(t: Tree, s: Subject, ii: int, limit: nat) returns (r: State)
    requires WellFormed(t)
    ensures
      var i := InitPosition(ii, |s|);
      (r == Outcome(Match(t, s, i)) || r == Overflow) &&
      (limit >= 1 + StackNeed(FlatTree.Fixed(t)) ==> r == Outcome(Match(t, s, i)))
    ensures limit >= 1 + StackNeed(FlatTree.Fixed(t)) ==>
      (ii > |s| || ii == 0 ==> r == Outcome(Match(t, s, |s|))) &&
      (1 <= ii <= |s| ==> r == Outcome(Match(t, s, ii - 1))) &&
      (-|s| <= ii < 0 ==> r == Outcome(Match(t, s, |s| + ii))) &&
      (ii < -|s| ==> r == Outcome(Match(t, s, 0)))
  {
    hide Match, StackNeed, FlatTree.Fixed, Implements, WellFormed;
    var i := InitPosition(ii, |s|);
    FixedSame(t, s, i);
    var code := Compile(FlatTree.Fixed(t));
    r := MatchPattern(code, s, i, limit, FlatTree.Fixed(t));
  }

  lemma FixedSame(t: Tree, s: Subject, i: nat)
    requires WellFormed(t) && i <= |s|
    ensures WellFormed(FlatTree.Fixed(t)) && Match(FlatTree.Fixed(t), s, i) == Match(t, s, i)
  {
    FlatTree.FixedKeeps(t);
    hide Match, FlatTree.Fixed, WellFormed;
  }
}
