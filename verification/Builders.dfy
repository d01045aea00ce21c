/** The pattern builders of lptree.c: their shortcuts keep the meaning of a pattern, and they
    only ever build well-formed trees. */
module Builders {
  import opened Common
  import opened Peg
  import opened Analysis

  /** Two patterns that match the same at every place of every subject. */
  ghost predicate Same(a: Tree, b: Tree) {
    forall s: Subject, i: nat :: i <= |s| ==> Match(a, s, i) == Match(b, s, i)
  }

  // ----- sequence, choice, difference -----

  function LpSeq(t1: Tree, t2: Tree): Tree {
    if t1.TFalse? || t2.TTrue? then t1
    else if t1.TTrue? then t2
    else TSeq(t1, t2)
  }

  lemma SeqMeaning(t1: Tree, t2: Tree)
    requires WellFormed(t1) && WellFormed(t2)
    ensures WellFormed(LpSeq(t1, t2)) && Same(LpSeq(t1, t2), TSeq(t1, t2))
  {
    forall s: Subject, i: nat | i <= |s| ensures Match(LpSeq(t1, t2), s, i) == Match(TSeq(t1, t2), s, i) {
      if t2.TTrue? && Match(t1, s, i).Some? { assert Match(t2, s, Match(t1, s, i).value) == Match(t1, s, i); }
    }
  }

  function LpChoice(t1: Tree, t2: Tree): Tree {
    var s1, s2 := ToCharset(t1), ToCharset(t2);
    if s1.Some? && s2.Some? then TSet(s1.value + s2.value)
    else if NoFail(t1) || t2.TFalse? then t1
    else if t1.TFalse? then t2
    else TChoice(t1, t2)
  }

  lemma SingleMeaning(t: Tree, s: Subject, i: nat)
    requires i <= |s| && ToCharset(t).Some?
    ensures Match(t, s, i) == Step1(InSet(ToCharset(t).value, s, i), i)
  {
  }

  lemma ChoiceMeaning(t1: Tree, t2: Tree)
    requires WellFormed(t1) && WellFormed(t2)
    ensures WellFormed(LpChoice(t1, t2)) && Same(LpChoice(t1, t2), TChoice(t1, t2))
  {
    forall s: Subject, i: nat | i <= |s| ensures Match(LpChoice(t1, t2), s, i) == Match(TChoice(t1, t2), s, i) {
      if ToCharset(t1).Some? && ToCharset(t2).Some? {
        SingleMeaning(t1, s, i);
        SingleMeaning(t2, s, i);
        SingleMeaning(LpChoice(t1, t2), s, i);
      } else if NoFail(t1) {
        NoFailSound(t1, s, i);
      }
    }
  }

  /** `t1 - t2`: match `t1`, but not where `t2` matches. */
  function LpSub(t1: Tree, t2: Tree): Tree {
    var s1, s2 := ToCharset(t1), ToCharset(t2);
    if s1.Some? && s2.Some? then TSet(s1.value - s2.value) else TSeq(TNot(t2), t1)
  }

  lemma SubMeaning(t1: Tree, t2: Tree, s: Subject, i: nat)
    requires WellFormed(t1) && WellFormed(t2) && i <= |s|
    ensures WellFormed(LpSub(t1, t2))
    ensures Match(LpSub(t1, t2), s, i) == if Match(t2, s, i).Some? then None else Match(t1, s, i)
  {
    if ToCharset(t1).Some? && ToCharset(t2).Some? {
      SingleMeaning(t1, s, i);
      SingleMeaning(t2, s, i);
      SingleMeaning(LpSub(t1, t2), s, i);
    } else {
      assert Match(TNot(t2), s, i) == if Match(t2, s, i).None? then Some(i) else None;
    }
  }

  // ----- repetition -----

  /** seq p (seq p ... (rep p)) with `n` leading copies. */
  function AtLeast(p: Tree, n: nat): Tree {
    if n == 0 then TRep(p) else TSeq(p, AtLeast(p, n - 1))
  }

  /** choice (seq p (choice (seq p ...) true)) true with `n` levels. */
  function AtMost(p: Tree, n: nat): Tree
    requires n >= 1
  {
    TChoice(if n == 1 then p else TSeq(p, AtMost(p, n - 1)), TTrue)
  }

  /** `p^n`; a loop over a pattern that may match the empty string is refused. */
  function LpStar(p: Tree, n: int): Option<Tree> {
    if n >= 0 then (if Nullable(p) then None else Some(AtLeast(p, n)))
    else Some(AtMost(p, -n))
  }

  /** Where `n` matches of `p` in a row end. */
  function Copies(p: Tree, n: nat, s: Subject, i: nat): (r: Option<nat>)
    requires i <= |s|
    ensures r.Some? ==> i <= r.value <= |s|
  {
    if n == 0 then Some(i)
    else
      var r := Match(p, s, i);
      if r.None? then None else Copies(p, n - 1, s, r.value)
  }

  /** The most matches of `p` in a row, up to `n`. */
  function Greedy(p: Tree, n: nat, s: Subject, i: nat): (r: Option<nat>)
    requires i <= |s|
    ensures r.Some? && i <= r.value <= |s|
  {
    if n == 0 then Some(i)
    else
      var r := Match(p, s, i);
      if r.None? then Some(i) else Greedy(p, n - 1, s, r.value)
  }

  /** The loop runs to exhaustion: it is the greedy match with enough turns. */
  lemma {:induction false} RepIsGreedy(p: Tree, s: Subject, i: nat, n: nat)
    requires !Nullable(p) && i <= |s| && n > |s| - i
    ensures Match(TRep(p), s, i) == Greedy(p, n, s, i)
    decreases |s| - i
  {
    var r := Match(p, s, i);
    if r.Some? {
      NullableSound(p, s, i);
      RepIsGreedy(p, s, r.value, n - 1);
    }
  }

  lemma {:induction false} AtLeastMatch(p: Tree, n: nat, s: Subject, i: nat)
    requires WellFormed(p) && !Nullable(p) && i <= |s|
    ensures WellFormed(AtLeast(p, n))
    ensures Match(AtLeast(p, n), s, i) ==
            var r := Copies(p, n, s, i);
            if r.None? then None else Match(TRep(p), s, r.value)
    decreases n
  {
    if n > 0 {
      var r := Match(p, s, i);
      AtLeastMatch(p, n - 1, s, if r.Some? then r.value else i);
    }
  }

  lemma {:induction false} AtMostMatch(p: Tree, n: nat, s: Subject, i: nat)
    requires WellFormed(p) && n >= 1 && i <= |s|
    ensures WellFormed(AtMost(p, n))
    ensures Match(AtMost(p, n), s, i) == Greedy(p, n, s, i)
    decreases n
  {
    var r := Match(p, s, i);
    assert Match(TTrue, s, i) == Some(i);
    if n == 1 {
      if r.Some? { assert Greedy(p, 0, s, r.value) == Some(r.value); }
    } else if r.Some? {
      AtMostMatch(p, n - 1, s, r.value);
      assert Match(TSeq(p, AtMost(p, n - 1)), s, i) == Match(AtMost(p, n - 1), s, r.value);
    } else {
      AtMostMatch(p, n - 1, s, i);
      assert Match(TSeq(p, AtMost(p, n - 1)), s, i) == None;
    }
  }

  /** `p^n` is refused exactly for an unbounded loop over a pattern that may match the empty string. With n >= 0
      it matches `n` times, then as often as it can; with n < 0 it matches as often as it can, up to -n times. */
  lemma StarMeaning(p: Tree, n: int, s: Subject, i: nat)
    requires WellFormed(p) && i <= |s|
    ensures LpStar(p, n).None? <==> n >= 0 && Nullable(p)
    ensures LpStar(p, n).Some? ==> WellFormed(LpStar(p, n).value)
    ensures LpStar(p, n).Some? && n >= 0 ==>
      Match(LpStar(p, n).value, s, i) ==
        var r := Copies(p, n, s, i);
        if r.None? then None else Greedy(p, |s| + 1, s, r.value)
    ensures n < 0 ==> Match(LpStar(p, n).value, s, i) == Greedy(p, -n, s, i)
  {
    if n < 0 {
      AtMostMatch(p, -n, s, i);
    } else if !Nullable(p) {
      AtLeastMatch(p, n, s, i);
      var r := Copies(p, n, s, i);
      if r.Some? { RepIsGreedy(p, s, r.value, |s| + 1); }
    }
  }

  /** `lp_behind`: refuses patterns whose length varies or is too long. */
  function LpBehind(p: Tree): Option<Tree> {
    var n := FixedLen(p);
    if 0 <= n <= MAXBEHIND then Some(TBehind(p, n)) else None
  }

  /** A look-behind matches where the pattern has just ended. */
  lemma BehindMeaning(p: Tree, s: Subject, i: nat)
    requires WellFormed(p) && i <= |s| && LpBehind(p).Some?
    ensures WellFormed(LpBehind(p).value)
    ensures Match(LpBehind(p).value, s, i)
      == if exists k: nat :: k <= i && Match(p, s, k) == Some(i) then Some(i) else None
  {
    var n := FixedLen(p);
    if n <= i { FixedLenSound(p, s, i - n); }
    forall k: nat | k <= i && Match(p, s, k) == Some(i) ensures k == i - n {
      FixedLenSound(p, s, k);
    }
    if n <= i && Match(p, s, i - n).Some? {
      assert Match(p, s, i - n) == Some(i);
    }
  }

  /** `fillseq` on a string: the characters in order. */
  function Literal(cs: seq<Byte>): Tree
    requires cs != []
  {
    if |cs| == 1 then TChar(cs[0]) else TSeq(TChar(cs[0]), Literal(cs[1..]))
  }

  /** A string has its own length and is not nullable, so that it may be repeated, and looked behind for if it is not
      longer than 255. */
  lemma {:induction false} LiteralLength(cs: seq<Byte>, n: int)
    requires cs != []
    ensures FixedLen(Literal(cs)) == |cs| && LpStar(Literal(cs), n).Some?
    ensures LpBehind(Literal(cs)).Some? <==> |cs| <= 255
  {
    if |cs| > 1 { LiteralLength(cs[1..], n); }
  }

  lemma {:induction false} LiteralMeaning(cs: seq<Byte>, s: Subject, i: nat)
    requires cs != [] && i <= |s|
    ensures WellFormed(Literal(cs))
    ensures Match(Literal(cs), s, i) == if cs <= s[i..] then Some(i + |cs|) else None
  {
    if |cs| > 1 {
      if i < |s| {
        LiteralMeaning(cs[1..], s, i + 1);
        assert s[i..][1..] == s[i + 1..];
        assert cs <= s[i..] <==> cs[0] == s[i] && cs[1..] <= s[i + 1..];
      } else {
        LiteralMeaning(cs[1..], s, i);
      }
    } else if i < |s| {
      assert cs <= s[i..] <==> cs[0] == s[i];
    }
  }
}
