/** Pattern trees of LPeg (without captures and grammars) and their PEG meaning. */
module Peg {
  import opened Common

  type Charset = set<Byte>

  /** The set `fullset` of lpcode.c: every character. */
  const Full: Charset := set b: int | 0 <= b < 256 :: b

  datatype Tree =
    | TChar(c: Byte)
    | TSet(cs: Charset)
    | TAny
    | TTrue
    | TFalse
    | TRep(p: Tree)
    | TSeq(p1: Tree, p2: Tree)
    | TChoice(p1: Tree, p2: Tree)
    | TNot(p: Tree)
    | TAnd(p: Tree)
    | TBehind(p: Tree, n: nat)

  type Subject = seq<Byte>

  predicate InSet(cs: Charset, s: Subject, i: nat) {
    i < |s| && s[i] in cs
  }

  function Step1(ok: bool, i: nat): (r: Option<nat>) {
    if ok then Some(i + 1) else None
  }

  /** The PEG meaning of a pattern: where a match of `t` that starts at `i` ends,
      or `None` when the pattern fails there. */
  function Match(t: Tree, s: Subject, i: nat): (r: Option<nat>)
    requires i <= |s|
    ensures r.Some? ==> i <= r.value <= |s|
    decreases t, |s| - i
  {
    match t
    case TChar(c) => Step1(i < |s| && s[i] == c, i)
    case TSet(cs) => Step1(InSet(cs, s, i), i)
    case TAny => Step1(i < |s|, i)
    case TTrue => Some(i)
    case TFalse => None
    case TRep(p) =>
      var r := Match(p, s, i);
      // a body that consumes nothing is refused by `lp_star`; stopping there keeps Match total
      if r.None? || r.value == i then Some(i) else Match(t, s, r.value)
    case TSeq(p1, p2) =>
      var r := Match(p1, s, i);
      if r.None? then None else Match(p2, s, r.value)
    case TChoice(p1, p2) =>
      var r := Match(p1, s, i);
      if r.Some? then r else Match(p2, s, i)
    case TNot(p) =>
      if Match(p, s, i).None? then Some(i) else None
    case TAnd(p) =>
      if Match(p, s, i).None? then None else Some(i)
    case TBehind(p, n) =>
      if n <= i && Match(p, s, i - n).Some? then Some(i) else None
  }
}
