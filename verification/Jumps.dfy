/** Final targets of jump chains, and why redirecting labels to them changes nothing. */
module Jumps {
  import opened Peg
  import opened Vm
  import opened Fragments
  import opened Layout

  /** Complete code, closed by `IEnd`: control never leaves it. */
  ghost predicate ClosedAt(code: seq<Slot>, pc: int) {
    && Decodes(code, pc)
    && Solid(code, pc)
    && (if code[pc].code == IEnd then pc == |code| - 1 else IsOp(code, pc + Size(code[pc].code)))
    && (HasLabel(code[pc].code) ==> IsOp(code, TargetOf(code, pc)))
    && (code[pc].code == IJmp ==> JumpOk(code, pc))
  }

  ghost predicate Closed(code: seq<Slot>) {
    && code != []
    && code[|code| - 1] == Inst(IEnd, 0)
    && IsOp(code, 0)
    && forall pc :: IsOp(code, pc) ==> ClosedAt(code, pc)
  }

  lemma TidyStays(code: seq<Slot>, f: seq<Slot>, pc: int)
    requires Tidy(f) && At(code, 0, f) && |f| < |code| && 0 <= pc < |f| && IsOp(code, pc) && Decodes(code, pc)
    ensures pc + Size(code[pc].code) <= |f|
    ensures HasLabel(code[pc].code) ==> TargetOf(code, pc) <= |f|
  {
    AtGet(code, 0, f, pc);
    assert TidyAt(f, pc);
    if HasLabel(f[pc].code) { AtGet(code, 0, f, pc + 1); }
  }

  lemma EndClosed(code: seq<Slot>, pc: int)
    requires IsOp(code, pc) && code[pc] == Inst(IEnd, 0) && pc == |code| - 1
    ensures ClosedAt(code, pc)
  {
  }

  lemma CloseTidy(f: seq<Slot>)
    requires Tidy(f)
    ensures Closed(f + [Inst(IEnd, 0)])
  {
    hide At, HasLabel, Size, SetIndex, JumpOk, Solid;
    var code := f + [Inst(IEnd, 0)];
    AtAppend([], f, [Inst(IEnd, 0)]);
    assert [] + f + [Inst(IEnd, 0)] == code;
    forall pc | IsOp(code, pc) ensures ClosedAt(code, pc) {
      if pc < |f| {
        TidyInside(code, 0, f, pc);
        TidyStays(code, f, pc);
      } else {
        EndClosed(code, pc);
      }
    }
    StartOp(code, 0, f);
  }

  /** Decreases along every jump. */
  ghost function Rank(code: seq<Slot>, pc: int): nat
    requires Closed(code) && IsOp(code, pc)
  {
    if !IsJump(code, pc) then 0
    else
      assert ClosedAt(code, pc);
      var t := TargetOf(code, pc);
      if t > pc then 2 * (|code| - t) + 1 else 2 * (|code| - pc)
  }

  lemma RankDown(code: seq<Slot>, pc: int)
    requires Closed(code) && IsJump(code, pc)
    ensures Decodes(code, pc) && IsOp(code, TargetOf(code, pc))
    ensures Rank(code, TargetOf(code, pc)) < Rank(code, pc)
  {
    assert ClosedAt(code, pc);
    var t := TargetOf(code, pc);
    assert ClosedAt(code, t);
  }

  /** `finaltarget`: where a chain of jumps that starts at `pc` ends. */
  ghost function Final(code: seq<Slot>, pc: int): (f: int)
    requires Closed(code) && IsOp(code, pc)
    ensures IsOp(code, f) && !IsJump(code, f)
    decreases Rank(code, pc)
  {
    if IsJump(code, pc) then
      RankDown(code, pc);
      Final(code, TargetOf(code, pc))
    else pc
  }

  ghost predicate SameFinal(o: seq<Slot>, x: int, y: int)
    requires Closed(o)
  {
    IsOp(o, x) && IsOp(o, y) && Final(o, x) == Final(o, y)
  }

  /** Instructions that never go on to the next one. */
  const Unconditional: set<Opcode> := {IFail, IFailTwice, IEnd, ICommit, IPartialCommit, IBackCommit}

  /** The instruction at `pc` of `c` does what that at `q` of `o` does, up to redirected labels. */
  ghost predicate Acts(o: seq<Slot>, c: seq<Slot>, pc: int, q: int)
    requires Closed(o) && |c| == |o| && IsOp(o, q) && IsOp(o, pc)
  {
    var op := o[q].code;
    && c[pc] == o[q]
    && Decodes(o, q)
    && Decodes(c, pc)
    && (HasLabel(op) ==> SameFinal(o, TargetOf(c, pc), TargetOf(o, q)))
    && (SetIndex(op) > 0 ==> c[pc + SetIndex(op)] == o[q + SetIndex(op)])
    && (pc == q || op in Unconditional)
  }

  /** A jump of `o` is still a jump along its chain, or has become the instruction at the
      end of the chain. */
  ghost predicate LinkedAt(o: seq<Slot>, c: seq<Slot>, pc: int)
    requires Closed(o) && |c| == |o| && IsOp(o, pc)
  {
    if !IsJump(o, pc) then Acts(o, c, pc, pc)
    else
      || Acts(o, c, pc, Final(o, pc))
      || (&& IsJump(c, pc) && Decodes(c, pc)
          && SameFinal(o, TargetOf(c, pc), pc)
          && Rank(o, TargetOf(c, pc)) < Rank(o, pc))
  }

  ghost predicate Linked(o: seq<Slot>, c: seq<Slot>)
    requires Closed(o)
  {
    |c| == |o| && forall pc :: IsOp(o, pc) ==> LinkedAt(o, c, pc)
  }

  lemma LinkedSelf(o: seq<Slot>)
    requires Closed(o)
    ensures Linked(o, o)
  {
    forall pc | IsOp(o, pc) ensures LinkedAt(o, o, pc) {
      assert ClosedAt(o, pc);
      if IsJump(o, pc) { RankDown(o, pc); }
    }
  }

  /** A label has been followed to its end, and a jump does not lead to an instruction it
      could have become. */
  ghost predicate OptimizedAt(o: seq<Slot>, c: seq<Slot>, pc: int)
    requires Closed(o) && |c| == |o|
  {
    IsOp(c, pc) && HasLabel(c[pc].code) ==>
      && Decodes(c, pc)
      && var t := TargetOf(c, pc);
      && IsOp(o, t) && IsOp(c, t) && c[t].code != IJmp
      && (c[pc].code == IJmp ==> c[t].code !in Unconditional)
  }

  /** `c` and `d` differ at most in the two slots of the instruction at `i`. */
  predicate ChangedAt(c: seq<Slot>, d: seq<Slot>, i: int) {
    |c| == |d| && forall q :: 0 <= q < |c| && q != i && q != i + 1 ==> c[q] == d[q]
  }

  lemma LinkedOp(o: seq<Slot>, c: seq<Slot>, pc: int)
    requires Closed(o) && Linked(o, c) && IsOp(o, pc)
    ensures |c| == |o|
    ensures Decodes(o, pc) && IsOp(c, pc) && Decodes(c, pc)
    ensures !IsJump(o, pc) ==> c[pc] == o[pc]
    ensures HasLabel(o[pc].code) ==> o[pc + 1].Offset?
    ensures HasLabel(c[pc].code) ==> HasLabel(o[pc].code)
  {
    assert ClosedAt(o, pc);
    assert LinkedAt(o, c, pc);
  }

  lemma ActsFrame(o: seq<Slot>, c: seq<Slot>, d: seq<Slot>, pc: int, q: int, i: int)
    requires Closed(o) && |c| == |o| && IsOp(o, q) && IsOp(o, pc) && IsOp(o, i) && pc != i
    requires Acts(o, c, pc, q) && ChangedAt(c, d, i)
    requires HasLabel(o[i].code) && Decodes(o, i) && Decodes(o, pc)
    requires pc != q ==> IsJump(o, pc)
    ensures Acts(o, d, pc, q)
  {
    hide Closed;
  }

  lemma LinkedUpdate(o: seq<Slot>, c: seq<Slot>, d: seq<Slot>, i: int)
    requires Closed(o) && Linked(o, c) && IsOp(o, i) && HasLabel(o[i].code) && ChangedAt(c, d, i)
    requires LinkedAt(o, d, i)
    ensures Linked(o, d)
  {
    forall pc | IsOp(o, pc) ensures LinkedAt(o, d, pc) {
      assert LinkedAt(o, c, pc);
      LinkedUpdateAt(o, c, d, pc, i);
    }
  }

  lemma ClosedDecodes(o: seq<Slot>, pc: int)
    requires Closed(o) && IsOp(o, pc)
    ensures Decodes(o, pc)
  {
    assert ClosedAt(o, pc);
  }

  lemma FinalSelf(o: seq<Slot>, pc: int)
    requires Closed(o) && IsOp(o, pc)
    ensures !IsJump(o, pc) ==> Final(o, pc) == pc
  {
  }

  lemma LinkedUpdateAt(o: seq<Slot>, c: seq<Slot>, d: seq<Slot>, pc: int, i: int)
    requires Closed(o) && |c| == |o| && IsOp(o, i) && HasLabel(o[i].code) && ChangedAt(c, d, i)
    requires IsOp(o, pc) && LinkedAt(o, c, pc) && LinkedAt(o, d, i)
    ensures LinkedAt(o, d, pc)
  {
    hide Acts, Rank, Closed, Final, SameFinal;
    if pc != i {
      ClosedDecodes(o, i);
      ClosedDecodes(o, pc);
      FinalSelf(o, pc);
      if Acts(o, c, pc, Final(o, pc)) { ActsFrame(o, c, d, pc, Final(o, pc), i); }
    }
  }

  // ----- simulation -----

  ghost predicate PcRel(o: seq<Slot>, x: int, y: int)
    requires Closed(o)
  {
    (x == GIVEUP && y == GIVEUP) || SameFinal(o, x, y)
  }

  ghost predicate StackRel(o: seq<Slot>, a: seq<Entry>, b: seq<Entry>)
    requires Closed(o)
  {
    && |a| == |b|
    && forall k :: 0 <= k < |a| ==> a[k].pos == b[k].pos && PcRel(o, a[k].pc, b[k].pc)
  }

  ghost predicate Rel(o: seq<Slot>, a: State, b: State)
    requires Closed(o)
  {
    if a.Run? then b.Run? && a.pos == b.pos && PcRel(o, a.pc, b.pc) && StackRel(o, a.stack, b.stack)
    else a == b
  }

  lemma PopRel(o: seq<Slot>, a: seq<Entry>, b: seq<Entry>)
    requires Closed(o) && StackRel(o, a, b) && a != []
    ensures StackRel(o, Pop(a), Pop(b))
    ensures b != [] && PcRel(o, Top(a).pc, Top(b).pc) && Top(a).pos == Top(b).pos
  {
    hide Closed, PcRel;
  }

  lemma PushRel(o: seq<Slot>, a: seq<Entry>, b: seq<Entry>, x: int, y: int, i: nat)
    requires Closed(o) && StackRel(o, a, b) && PcRel(o, x, y)
    ensures StackRel(o, Push(a, x, i), Push(b, y, i))
  {
    hide Closed, PcRel;
  }

  lemma BacktrackRel(o: seq<Slot>, a: seq<Entry>, b: seq<Entry>)
    requires Closed(o) && StackRel(o, a, b)
    ensures Backtrack(a) == Crash || Rel(o, Backtrack(a), Backtrack(b))
  {
    hide Closed, PcRel, StackRel;
    if a != [] { PopRel(o, a, b); }
  }

  lemma NextRel(o: seq<Slot>, pc: int)
    requires Closed(o) && IsOp(o, pc) && o[pc].code != IEnd
    ensures PcRel(o, pc + Size(o[pc].code), pc + Size(o[pc].code))
  {
    assert ClosedAt(o, pc);
  }

  lemma ActsFacts(o: seq<Slot>, c: seq<Slot>, pc: int, q: int)
    requires Closed(o) && |c| == |o| && IsOp(o, q) && IsOp(o, pc) && Acts(o, c, pc, q)
    ensures Decodes(o, q) && Decodes(c, pc) && c[pc] == o[q]
    ensures HasLabel(o[q].code) ==> PcRel(o, TargetOf(o, q), TargetOf(c, pc))
    ensures SetIndex(o[q].code) > 0 ==> c[pc + SetIndex(o[q].code)] == o[q + SetIndex(o[q].code)]
    ensures o[q].code !in Unconditional ==> pc == q && PcRel(o, q + Size(o[q].code), pc + Size(o[q].code))
  {
    hide Closed;
    if o[q].code !in Unconditional { NextRel(o, q); }
  }

  ghost predicate SameInstruction(o: Machine, c: Machine, a: State, b: State) {
    && Closed(o.code) && |c.code| == |o.code|
    && o.subject == c.subject && o.limit == c.limit
    && a.Run? && b.Run? && a.pos == b.pos && StackRel(o.code, a.stack, b.stack)
    && IsOp(o.code, a.pc) && IsOp(o.code, b.pc)
    && Acts(o.code, c.code, b.pc, a.pc)
  }

  /** The same instruction takes related states to related states. */
  lemma StepRel(o: Machine, c: Machine, a: State, b: State)
    requires SameInstruction(o, c, a, b)
    ensures o.Step(a) == Crash || Rel(o.code, o.Step(a), c.Step(b))
  {
    hide Machine.Step, Acts;
    var op := o.code[a.pc].code;
    if op in {IAny, IChar, ISet} {
      ConsumeRel(o, c, a, b);
    } else if op in {ITestAny, ITestChar, ITestSet} {
      TestRel(o, c, a, b);
    } else if op in {IChoice, ICommit, IPartialCommit, IBackCommit, IFailTwice} {
      StackOpRel(o, c, a, b);
    } else {
      OtherRel(o, c, a, b);
    }
  }

  lemma ConsumeRel(o: Machine, c: Machine, a: State, b: State)
    requires SameInstruction(o, c, a, b) && o.code[a.pc].code in {IAny, IChar, ISet}
    ensures o.Step(a) == Crash || Rel(o.code, o.Step(a), c.Step(b))
  {
    hide Closed, StackRel, PcRel, Acts, Pop, Push, Top, Rel, Backtrack, Size;
    ActsFacts(o.code, c.code, b.pc, a.pc);
    if o.Step(a) != Crash {
      if o.Accepts(a.pc, a.pos) {
        RunRel(o.code, a.pc + Size(o.code[a.pc].code), b.pc + Size(o.code[a.pc].code), a.pos + 1, a.stack, b.stack);
      } else {
        BacktrackRel(o.code, a.stack, b.stack);
      }
    }
  }

  lemma RunRel(o: seq<Slot>, x: int, y: int, i: nat, a: seq<Entry>, b: seq<Entry>)
    requires Closed(o) && PcRel(o, x, y) && StackRel(o, a, b)
    ensures Rel(o, Run(x, i, a), Run(y, i, b))
  {
  }

  lemma TestRel(o: Machine, c: Machine, a: State, b: State)
    requires SameInstruction(o, c, a, b) && o.code[a.pc].code in {ITestAny, ITestChar, ITestSet}
    ensures o.Step(a) == Crash || Rel(o.code, o.Step(a), c.Step(b))
  {
    hide Closed, StackRel, PcRel, Acts, Pop, Push, Top, Rel, Backtrack, Size;
    ActsFacts(o.code, c.code, b.pc, a.pc);
    if o.Accepts(a.pc, a.pos) {
      RunRel(o.code, a.pc + Size(o.code[a.pc].code), b.pc + Size(o.code[a.pc].code), a.pos, a.stack, b.stack);
    } else {
      RunRel(o.code, TargetOf(o.code, a.pc), TargetOf(c.code, b.pc), a.pos, a.stack, b.stack);
    }
  }

  lemma OtherRel(o: Machine, c: Machine, a: State, b: State)
    requires SameInstruction(o, c, a, b) && o.code[a.pc].code in {IFail, ISpan, IBehind, IEnd, IJmp}
    ensures o.Step(a) == Crash || Rel(o.code, o.Step(a), c.Step(b))
  {
    hide Closed, StackRel, PcRel, Acts, Pop, Push, Top, Rel, Backtrack, Size;
    ActsFacts(o.code, c.code, b.pc, a.pc);
    StackSize(o.code, a.stack, b.stack);
    var next := Size(o.code[a.pc].code);
    if o.Step(a) != Crash {
      match o.code[a.pc].code
      case IFail => BacktrackRel(o.code, a.stack, b.stack);
      case ISpan =>
        RunRel(o.code, a.pc + next, b.pc + next, Span(o.code[a.pc + 1].cs, o.subject, a.pos), a.stack, b.stack);
      case IBehind =>
        if o.code[a.pc].aux > a.pos { BacktrackRel(o.code, a.stack, b.stack); }
        else { RunRel(o.code, a.pc + next, b.pc + next, a.pos - o.code[a.pc].aux, a.stack, b.stack); }
      case IEnd => DoneRel(o.code, Matched(a.pos));
      case IJmp => RunRel(o.code, TargetOf(o.code, a.pc), TargetOf(c.code, b.pc), a.pos, a.stack, b.stack);
    }
  }

  lemma DoneRel(o: seq<Slot>, a: State)
    requires Closed(o) && !a.Run?
    ensures Rel(o, a, a)
  {
  }

  lemma StackOpRel(o: Machine, c: Machine, a: State, b: State)
    requires SameInstruction(o, c, a, b)
    requires o.code[a.pc].code in {IChoice, ICommit, IPartialCommit, IBackCommit, IFailTwice}
    ensures o.Step(a) == Crash || Rel(o.code, o.Step(a), c.Step(b))
  {
    hide Closed, StackRel, PcRel, Acts, Pop, Push, Top, Rel, Backtrack, Size;
    ActsFacts(o.code, c.code, b.pc, a.pc);
    StackSize(o.code, a.stack, b.stack);
    var op := o.code[a.pc].code;
    if op == IChoice {
      var x, y := TargetOf(o.code, a.pc), TargetOf(c.code, b.pc);
      PushRel(o.code, a.stack, b.stack, x, y, a.pos);
      if o.Step(a) == Overflow { DoneRel(o.code, Overflow); }
      else if o.Step(a) != Crash {
        RunRel(o.code, a.pc + Size(op), b.pc + Size(op), a.pos, Push(a.stack, x, a.pos), Push(b.stack, y, a.pos));
      }
    } else if a.stack != [] {
      PopRel(o.code, a.stack, b.stack);
      var sa, sb := Pop(a.stack), Pop(b.stack);
      if op == IFailTwice {
        BacktrackRel(o.code, sa, sb);
      } else {
        var x, y := TargetOf(o.code, a.pc), TargetOf(c.code, b.pc);
        RunRel(o.code, x, y, a.pos, sa, sb);
        RunRel(o.code, x, y, Top(a.stack).pos, sa, sb);
        PushRel(o.code, sa, sb, Top(a.stack).pc, Top(b.stack).pc, a.pos);
        RunRel(o.code, x, y, a.pos, Push(sa, Top(a.stack).pc, a.pos), Push(sb, Top(b.stack).pc, a.pos));
      }
    }
  }

  lemma StackSize(o: seq<Slot>, a: seq<Entry>, b: seq<Entry>)
    requires Closed(o) && StackRel(o, a, b)
    ensures |a| == |b|
  {
  }

  /** From a state at an address of the chain, the redirected code does what the original
      does at the end of the chain. */
  lemma JumpsThrough(o: Machine, c: Machine, a: State, b: State)
    requires Closed(o.code) && Linked(o.code, c.code)
    requires o.subject == c.subject && o.limit == c.limit
    requires Rel(o.code, a, b) && a.Run? && a.pos <= |o.subject| && IsOp(o.code, a.pc) && !IsJump(o.code, a.pc)
    ensures o.Step(a) == Crash || exists b' :: c.Reaches(b, b') && Rel(o.code, o.Step(a), b')
    decreases Rank(o.code, b.pc)
  {
    hide Machine.Reaches, Machine.Step, Acts, Closed, StackRel;
    assert LinkedAt(o.code, c.code, b.pc);
    if Acts(o.code, c.code, b.pc, a.pc) {
      StepRel(o, c, a, b);
      c.One(b);
    } else {
      var b1 := Run(TargetOf(c.code, b.pc), b.pos, b.stack);
      JumpStep(c, b);
      c.One(b);
      JumpsThrough(o, c, a, b1);
      if o.Step(a) != Crash {
        var b' :| c.Reaches(b1, b') && Rel(o.code, o.Step(a), b');
        c.Trans(b, b1, b');
      }
    }
  }

  lemma JumpStep(m: Machine, a: State)
    requires a.Run? && a.pos <= |m.subject| && IsJump(m.code, a.pc) && Decodes(m.code, a.pc)
    ensures m.Step(a) == Run(TargetOf(m.code, a.pc), a.pos, a.stack)
  {
  }

  /** Redirecting labels preserves the outcome of every run. */
  lemma {:induction false} LinkedRuns(o: Machine, c: Machine, a: State, b: State, n: nat)
    requires Closed(o.code) && Linked(o.code, c.code)
    requires o.subject == c.subject && o.limit == c.limit
    requires Rel(o.code, a, b)
    requires !o.StepN(a, n).Run? && o.StepN(a, n) != Crash
    ensures c.Reaches(b, o.StepN(a, n))
    decreases n
  {
    hide Machine.Reaches, Machine.Step, Closed, StackRel, LinkedAt;
    if !a.Run? {
      StaysDone(o, a, n);
      c.Refl(b);
    } else if a.pc == GIVEUP {
      GiveUpStep(o, c, a, b);
      assert o.StepN(a, n) == o.StepN(o.Step(a), n - 1);
      StaysDone(o, o.Step(a), n - 1);
      c.One(b);
    } else {
      assert o.StepN(a, n) == o.StepN(o.Step(a), n - 1);
      if a.pos > |o.subject| || o.Step(a) == Crash {
        if a.pos > |o.subject| { BadPosition(o, a); }
        StaysDone(o, o.Step(a), n - 1);
        assert false;
      } else if IsJump(o.code, a.pc) {
        JumpRel(o, a, b);
        LinkedRuns(o, c, o.Step(a), b, n - 1);
      } else {
        JumpsThrough(o, c, a, b);
        var b' :| c.Reaches(b, b') && Rel(o.code, o.Step(a), b');
        LinkedRuns(o, c, o.Step(a), b', n - 1);
        c.Trans(b, b', o.StepN(a, n));
      }
    }
  }

  lemma {:induction false} StaysDone(m: Machine, a: State, n: nat)
    requires !a.Run?
    ensures m.StepN(a, n) == a
    decreases n
  {
    if n > 0 { StaysDone(m, a, n - 1); }
  }

  lemma GiveUpStep(o: Machine, c: Machine, a: State, b: State)
    requires Closed(o.code) && Rel(o.code, a, b) && a.Run? && a.pc == GIVEUP
    ensures o.Step(a) == c.Step(b) && !o.Step(a).Run?
  {
  }

  lemma BadPosition(m: Machine, a: State)
    requires a.Run? && a.pc != GIVEUP && a.pos > |m.subject|
    ensures m.Step(a) == Crash
  {
  }

  lemma JumpRel(o: Machine, a: State, b: State)
    requires Closed(o.code) && Rel(o.code, a, b) && a.Run? && a.pos <= |o.subject| && IsJump(o.code, a.pc)
    ensures Rel(o.code, o.Step(a), b)
  {
    hide StackRel, Closed, Rank, Machine.Step, Final;
    RankDown(o.code, a.pc);
    FinalJump(o.code, a.pc);
    JumpStep(o, a);
  }

  lemma FinalJump(code: seq<Slot>, pc: int)
    requires Closed(code) && IsJump(code, pc) && Decodes(code, pc)
    ensures IsOp(code, TargetOf(code, pc)) && SameFinal(code, TargetOf(code, pc), pc)
  {
    hide Closed, Rank;
    RankDown(code, pc);
  }
}
