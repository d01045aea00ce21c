/** The static analyses of lpcode.c and their soundness. */
module Analysis {
  import opened Common
  import opened Peg

  datatype Pred = PEnullable | PEnofail

  function CheckAux(t: Tree, pred: Pred): bool {
    match t
    case TChar(_) => false
    case TSet(_) => false
    case TAny => false
    case TFalse => false
    case TRep(_) => true
    case TTrue => true
    case TNot(_) => pred.PEnullable?
    case TBehind(_, _) => pred.PEnullable?
    case TAnd(p) => pred.PEnullable? || CheckAux(p, pred)
    case TSeq(p1, p2) => CheckAux(p1, pred) && CheckAux(p2, pred)
    case TChoice(p1, p2) => CheckAux(p2, pred) || CheckAux(p1, pred)
  }

  function Nullable(t: Tree): bool { CheckAux(t, PEnullable) }

  function NoFail(t: Tree): bool { CheckAux(t, PEnofail) }

  /** Number of characters every match consumes, or -1 when it varies. */
  function FixedLen(t: Tree): int {
    match t
    case TChar(_) => 1
    case TSet(_) => 1
    case TAny => 1
    case TFalse => 0
    case TTrue => 0
    case TNot(_) => 0
    case TAnd(_) => 0
    case TBehind(_, _) => 0
    case TRep(_) => -1
    case TSeq(p1, p2) =>
      var n1 := FixedLen(p1);
      if n1 < 0 then -1
      else
        var n2 := FixedLen(p2);
        if n2 < 0 then -1 else n1 + n2
    case TChoice(p1, p2) =>
      var n1, n2 := FixedLen(p1), FixedLen(p2);
      if n1 != n2 || n1 < 0 then -1 else n1
  }

  function ToCharset(t: Tree): Option<Charset> {
    match t
    case TSet(cs) => Some(cs)
    case TChar(c) => Some({c})
    case TAny => Some(Full)
    case _ => None
  }

  /** `getfirst`: the first set, and whether the pattern may accept the empty subject. */
  datatype First = First(cs: Charset, e: bool)

  function GetFirst(t: Tree, follow: Charset): First {
    match t
    case TChar(c) => First({c}, false)
    case TSet(cs) => First(cs, false)
    case TAny => First(Full, false)
    case TTrue => First(follow, true)
    case TFalse => First({}, false)
    case TChoice(p1, p2) =>
      var f1, f2 := GetFirst(p1, follow), GetFirst(p2, follow);
      First(f1.cs + f2.cs, f1.e || f2.e)
    case TSeq(p1, p2) =>
      if !Nullable(p1) then GetFirst(p1, Full)
      else
        var f2 := GetFirst(p2, follow);
        var f1 := GetFirst(p1, f2.cs);
        First(f1.cs, if !f1.e then false else f2.e)
    case TRep(p) =>
      First(GetFirst(p, follow).cs + follow, true)
    case TAnd(p) =>
      var f := GetFirst(p, follow);
      First(f.cs * follow, f.e)
    case TNot(p) =>
      var cs := ToCharset(p);
      if cs.Some? then First(Full - cs.value, true) else First(follow, true)
    case TBehind(_, _) => First(follow, true)
  }

  function HeadFail(t: Tree): bool {
    match t
    case TChar(_) => true
    case TSet(_) => true
    case TAny => true
    case TFalse => true
    case TTrue => false
    case TRep(_) => false
    case TNot(_) => false
    case TBehind(_, _) => false
    case TAnd(p) => HeadFail(p)
    case TSeq(p1, p2) => NoFail(p2) && HeadFail(p1)
    case TChoice(p1, p2) => HeadFail(p1) && HeadFail(p2)
  }

  function NeedFollow(t: Tree): bool {
    match t
    case TChoice(_, _) => true
    case TRep(_) => true
    case TSeq(_, p2) => NeedFollow(p2)
    case _ => false
  }

  /** What the builders of lptree.c guarantee: loop bodies are not nullable and
      look-behind bodies have the recorded fixed length. */
  const MAXBEHIND := 255

  predicate WellFormed(t: Tree) {
    match t
    case TRep(p) => WellFormed(p) && !Nullable(p)
    case TSeq(p1, p2) => WellFormed(p1) && WellFormed(p2)
    case TChoice(p1, p2) => WellFormed(p1) && WellFormed(p2)
    case TNot(p) => WellFormed(p)
    case TAnd(p) => WellFormed(p)
    case TBehind(p, n) => WellFormed(p) && FixedLen(p) == n && n <= MAXBEHIND
    case _ => true
  }

  // ----- soundness -----

  /** A pattern without look-ahead and look-behind. */
  predicate Plain(t: Tree) {
    match t
    case TRep(p) => Plain(p)
    case TSeq(p1, p2) => Plain(p1) && Plain(p2)
    case TChoice(p1, p2) => Plain(p1) && Plain(p2)
    case TNot(_) => false
    case TAnd(_) => false
    case TBehind(_, _) => false
    case _ => true
  }

  /** Such a pattern is called nullable exactly if it matches the empty subject. */
  lemma {:induction false} NullableExactly(t: Tree)
    requires Plain(t)
    ensures Nullable(t) <==> Match(t, [], 0) == Some(0)
  {
    match t
    case TSeq(p1, p2) =>
      NullableExactly(p1);
      NullableExactly(p2);
    case TChoice(p1, p2) =>
      NullableExactly(p1);
      NullableExactly(p2);
    case _ =>
  }

  lemma {:induction false} NullableSound(t: Tree, s: Subject, i: nat)
    requires i <= |s|
    requires !Nullable(t)
    ensures Match(t, s, i).Some? ==> Match(t, s, i).value > i
  {
    match t
    case TSeq(p1, p2) =>
      var r := Match(p1, s, i);
      if r.Some? {
        if !Nullable(p1) { NullableSound(p1, s, i); } else { NullableSound(p2, s, r.value); }
      }
    case TChoice(p1, p2) =>
      NullableSound(p1, s, i);
      NullableSound(p2, s, i);
    case _ =>
  }

  lemma {:induction false} NoFailSound(t: Tree, s: Subject, i: nat)
    requires i <= |s|
    requires NoFail(t)
    ensures Match(t, s, i).Some?
    decreases t, |s| - i
  {
    match t
    case TSeq(p1, p2) =>
      NoFailSound(p1, s, i);
      NoFailSound(p2, s, Match(p1, s, i).value);
    case TChoice(p1, p2) =>
      if NoFail(p1) { NoFailSound(p1, s, i); } else { NoFailSound(p2, s, i); }
    case TAnd(p) => NoFailSound(p, s, i);
    case TRep(p) =>
      var r := Match(p, s, i);
      if r.Some? && r.value > i { NoFailSound(t, s, r.value); }
    case _ =>
  }

  lemma {:induction false} FixedLenSound(t: Tree, s: Subject, i: nat)
    requires i <= |s|
    requires FixedLen(t) >= 0
    ensures Match(t, s, i).Some? ==> Match(t, s, i).value == i + FixedLen(t)
  {
    match t
    case TSeq(p1, p2) =>
      FixedLenSound(p1, s, i);
      var r := Match(p1, s, i);
      if r.Some? { FixedLenSound(p2, s, r.value); }
    case TChoice(p1, p2) =>
      FixedLenSound(p1, s, i);
      FixedLenSound(p2, s, i);
    case _ =>
  }

  /** A character outside the first set lets the pattern succeed only by matching
      the empty string in front of a character outside `follow`. */
  lemma {:induction false} FirstSound(t: Tree, follow: Charset, s: Subject, i: nat)
    requires i < |s|
    requires s[i] !in GetFirst(t, follow).cs
    ensures Match(t, s, i).Some? ==> Match(t, s, i).value == i && s[i] !in follow
  {
    match t
    case TSeq(p1, p2) =>
      if !Nullable(p1) {
        FirstSound(p1, Full, s, i);
      } else {
        var cs2 := GetFirst(p2, follow).cs;
        FirstSound(p1, cs2, s, i);
        if Match(p1, s, i).Some? { FirstSound(p2, follow, s, i); }
      }
    case TChoice(p1, p2) =>
      FirstSound(p1, follow, s, i);
      FirstSound(p2, follow, s, i);
    case TRep(p) => FirstSound(p, follow, s, i);
    case TAnd(p) =>
      if s[i] !in GetFirst(p, follow).cs { FirstSound(p, follow, s, i); }
    case _ =>
  }

  /** When `getfirst` returns 0 the pattern fails at the end of the subject. */
  lemma {:induction false} EmptySound(t: Tree, follow: Charset, s: Subject)
    requires !GetFirst(t, follow).e
    ensures Match(t, s, |s|).None?
  {
    match t
    case TSeq(p1, p2) =>
      if !Nullable(p1) {
        EmptySound(p1, Full, s);
      } else {
        var f2 := GetFirst(p2, follow);
        if !GetFirst(p1, f2.cs).e { EmptySound(p1, f2.cs, s); }
        else { EmptySound(p2, follow, s); }
      }
    case TChoice(p1, p2) =>
      EmptySound(p1, follow, s);
      EmptySound(p2, follow, s);
    case TAnd(p) => EmptySound(p, follow, s);
    case _ =>
  }

  lemma {:induction false} NoFailNullable(t: Tree)
    requires NoFail(t)
    ensures Nullable(t)
  {
    match t
    case TSeq(p1, p2) => NoFailNullable(p1); NoFailNullable(p2);
    case TChoice(p1, p2) => if NoFail(p1) { NoFailNullable(p1); } else { NoFailNullable(p2); }
    case _ =>
  }

  lemma {:induction false} NoFailFirst(t: Tree)
    requires NoFail(t)
    ensures GetFirst(t, Full).cs == Full
  {
    match t
    case TSeq(p1, p2) =>
      NoFailNullable(p1);
      NoFailFirst(p2);
      NoFailFirst(p1);
    case TChoice(p1, p2) =>
      if NoFail(p1) { NoFailFirst(p1); } else { NoFailFirst(p2); }
    case TAnd(p) => NoFailFirst(p);
    case _ =>
  }

  /** The first-set result of a no-fail pattern says that it may match the empty string, before any follow set. */
  lemma {:induction false} NoFailEmpty(t: Tree, follow: Charset)
    requires NoFail(t)
    ensures GetFirst(t, follow).e
  {
    match t
    case TSeq(p1, p2) =>
      NoFailNullable(p1);
      NoFailEmpty(p2, follow);
      NoFailEmpty(p1, GetFirst(p2, follow).cs);
    case TChoice(p1, p2) =>
      if NoFail(p1) { NoFailEmpty(p1, follow); } else { NoFailEmpty(p2, follow); }
    case TAnd(p) => NoFailEmpty(p, follow);
    case _ =>
  }

  /** A head-fail pattern fails exactly on the characters outside its first set. */
  lemma {:induction false} HeadFailSound(t: Tree, s: Subject, i: nat)
    requires i <= |s|
    requires HeadFail(t)
    ensures !GetFirst(t, Full).e
    ensures Match(t, s, i).Some? <==> InSet(GetFirst(t, Full).cs, s, i)
  {
    match t
    case TSeq(p1, p2) =>
      HeadFailSound(p1, s, i);
      NoFailFirst(p2);
      var r := Match(p1, s, i);
      if r.Some? { NoFailSound(p2, s, r.value); }
    case TChoice(p1, p2) =>
      HeadFailSound(p1, s, i);
      HeadFailSound(p2, s, i);
    case TAnd(p) => HeadFailSound(p, s, i);
    case _ =>
  }
}
