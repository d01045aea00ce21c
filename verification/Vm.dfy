/** The parsing machine of lpvm.c, without calls and captures. */
module Vm {
  import opened Common
  import opened Peg

  datatype Opcode =
    | IAny | IChar | ISet | ITestAny | ITestChar | ITestSet | ISpan | IBehind
    | IEnd | IChoice | IJmp | ICommit | IPartialCommit | IBackCommit
    | IFailTwice | IFail

  /** One element of the code array: a C union that holds an instruction head, a jump
      offset, or four bytes of a character set. `Buff` is the first element of a set and
      carries it whole; `Pad` is each of the seven that follow. */
  datatype Slot = Inst(code: Opcode, aux: Byte) | Offset(off: int) | Buff(cs: Charset) | Pad

  /** Elements taken by an instruction that holds a set: one head and 32 bytes. */
  const CHARSETINSTSIZE := 9

  /** Program counter of the static `giveup` instruction, outside every code array. */
  const GIVEUP := -1

  function Size(op: Opcode): (n: nat)
    ensures 1 <= n
  {
    match op
    case ISet => CHARSETINSTSIZE
    case ISpan => CHARSETINSTSIZE
    case ITestSet => CHARSETINSTSIZE + 1
    case ITestChar => 2
    case ITestAny => 2
    case IChoice => 2
    case IJmp => 2
    case ICommit => 2
    case IPartialCommit => 2
    case IBackCommit => 2
    case _ => 1
  }

  predicate HasLabel(op: Opcode) {
    op in {ITestAny, ITestChar, ITestSet, IChoice, IJmp, ICommit, IPartialCommit, IBackCommit}
  }

  /** Index, relative to the head, of the set an instruction carries (0: no set). */
  function SetIndex(op: Opcode): nat {
    match op
    case ISet => 1
    case ISpan => 1
    case ITestSet => 2
    case _ => 0
  }

  predicate IsOp(code: seq<Slot>, pc: int) {
    0 <= pc < |code| && code[pc].Inst?
  }

  /** The slots behind the head at `pc` are those its opcode calls for. */
  predicate Decodes(code: seq<Slot>, pc: int) {
    && IsOp(code, pc)
    && (HasLabel(code[pc].code) ==> pc + 1 < |code| && code[pc + 1].Offset?)
    && var k := SetIndex(code[pc].code);
    && (k > 0 ==> pc + k < |code| && code[pc + k].Buff?)
  }

  function TargetOf(code: seq<Slot>, pc: int): int
    requires 0 <= pc && pc + 1 < |code| && code[pc + 1].Offset?
  {
    pc + code[pc + 1].off
  }

  datatype Entry = Entry(pc: int, pos: nat)

  /** `Crash` stands for a violated assertion of the source or a jump to something that
      is not an instruction; `Overflow` for the error raised by `doublestack`. */
  datatype State =
    | Run(pc: int, pos: nat, stack: seq<Entry>)
    | Matched(end: nat)
    | GaveUp
    | Overflow
    | Crash

  function Span(cs: Charset, s: Subject, i: nat): (j: nat)
    requires i <= |s|
    ensures i <= j <= |s|
    decreases |s| - i
  {
    if InSet(cs, s, i) then Span(cs, s, i + 1) else i
  }

  function Push(stack: seq<Entry>, pc: int, pos: nat): seq<Entry> {
    stack + [Entry(pc, pos)]
  }

  function Pop(stack: seq<Entry>): seq<Entry>
    requires stack != []
  {
    stack[..|stack| - 1]
  }

  function Top(stack: seq<Entry>): Entry
    requires stack != []
  {
    stack[|stack| - 1]
  }

  /** The label `fail` of the interpreter: resume at the newest stack entry. */
  function Backtrack(stack: seq<Entry>): State {
    if stack == [] then Crash else Run(Top(stack).pc, Top(stack).pos, Pop(stack))
  }

  datatype Machine = Machine(code: seq<Slot>, subject: Subject, limit: nat) {

    /** Whether the test instruction at `pc` accepts the current character. */
    predicate Accepts(pc: int, pos: nat)
      requires Decodes(code, pc)
    {
      && pos < |subject|
      && (code[pc].code in {IChar, ITestChar} ==> subject[pos] == code[pc].aux)
      && (code[pc].code in {ISet, ITestSet} ==> subject[pos] in code[pc + SetIndex(code[pc].code)].cs)
    }

    /** One turn of the interpreter loop. */
    function Step(st: State): (r: State) {
      if !st.Run? then st
      else
        var Run(pc, pos, stack) := st;
        if pc == GIVEUP then (if stack == [] then GaveUp else Crash)
        else if !Decodes(code, pc) || pos > |subject| then Crash
        else
          var op := code[pc].code;
          var next := pc + Size(op);
          match op
          case IAny => if Accepts(pc, pos) then Run(next, pos + 1, stack) else Backtrack(stack)
          case IChar => if Accepts(pc, pos) then Run(next, pos + 1, stack) else Backtrack(stack)
          case ISet => if Accepts(pc, pos) then Run(next, pos + 1, stack) else Backtrack(stack)
          case ITestAny => Run(if Accepts(pc, pos) then next else TargetOf(code, pc), pos, stack)
          case ITestChar => Run(if Accepts(pc, pos) then next else TargetOf(code, pc), pos, stack)
          case ITestSet => Run(if Accepts(pc, pos) then next else TargetOf(code, pc), pos, stack)
          case ISpan => Run(next, Span(code[pc + 1].cs, subject, pos), stack)
          case IBehind =>
            var n := code[pc].aux;
            if n > pos then Backtrack(stack) else Run(next, pos - n, stack)
          case IEnd => if |stack| == 1 then Matched(pos) else Crash
          case IJmp => Run(TargetOf(code, pc), pos, stack)
          case IChoice =>
            if |stack| >= limit then Overflow
            else Run(next, pos, Push(stack, TargetOf(code, pc), pos))
          case ICommit =>
            if stack == [] then Crash else Run(TargetOf(code, pc), pos, Pop(stack))
          case IPartialCommit =>
            if stack == [] then Crash
            else Run(TargetOf(code, pc), pos, Push(Pop(stack), Top(stack).pc, pos))
          case IBackCommit =>
            if stack == [] then Crash else Run(TargetOf(code, pc), Top(stack).pos, Pop(stack))
          case IFailTwice =>
            if stack == [] then Crash else Backtrack(Pop(stack))
          case IFail => Backtrack(stack)
    }

    function StepN(st: State, n: nat): State
      decreases n
    {
      if n == 0 then st else StepN(Step(st), n - 1)
    }

    ghost predicate Reaches(a: State, b: State) {
      exists n: nat :: StepN(a, n) == b
    }

    lemma {:induction false} StepNAdd(st: State, m: nat, n: nat)
      ensures StepN(StepN(st, m), n) == StepN(st, m + n)
      decreases m
    {
      if m != 0 { StepNAdd(Step(st), m - 1, n); }
    }

    lemma Refl(a: State)
      ensures Reaches(a, a)
    {
      assert StepN(a, 0) == a;
    }

    lemma One(a: State)
      ensures Reaches(a, Step(a))
    {
      assert StepN(a, 1) == StepN(Step(a), 0) == Step(a);
    }

    lemma Trans(a: State, b: State, c: State)
      requires Reaches(a, b) && Reaches(b, c)
      ensures Reaches(a, c)
    {
      var m: nat :| StepN(a, m) == b;
      var n: nat :| StepN(b, n) == c;
      StepNAdd(a, m, n);
    }

    /** `a` steps to `b` and `b` reaches `c`. */
    lemma Then(a: State, c: State)
      requires Reaches(Step(a), c)
      ensures Reaches(a, c)
    {
      One(a);
      Trans(a, Step(a), c);
    }
  }
}
