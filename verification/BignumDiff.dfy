/** The difference of two big integers of dtoa.c, and its sign. */
module BignumDiff {
  import opened Common
  import opened Bignum
  import opened BignumPower

  /** One word of a difference. */
  lemma DiffStep(v: nat, u: nat, w: nat, x: nat, y: nat, borrow: nat, z: nat, borrow': nat, p: nat)
    requires v + u == w + borrow * p
    requires z + y + borrow == x + borrow' * BASE
    ensures (v + z * p) + (u + y * p) == (w + x * p) + borrow' * (BASE * p)
  {
    assert borrow' * (BASE * p) == (borrow' * BASE) * p;
    Distribute(x, borrow' * BASE, p);
    Distribute(z + y, borrow, p);
    Distribute(z, y, p);
  }

  /** One round of the loops of `diff`; behind the last word of the smaller number `y` is zero. */
  method DiffWord(x: Word, y: Word, borrow: nat) returns (z: Word, borrow': nat)
    requires borrow <= 1
    ensures borrow' <= 1 && z + y + borrow == x + borrow' * BASE
  {
    var d := x - y - borrow;
    BorrowBit(d);
    borrow' := (Wrap(d) / BASE) % 2;
    z := Wrap(d) % BASE;
  }

  /** The value of the first words of a number, with zeros behind its last word. */
  function Low(s: seq<Word>, i: nat): nat { Value(if i <= |s| then s[..i] else s) }

  lemma LowStep(s: seq<Word>, i: nat)
    ensures Low(s, i + 1) == Low(s, i) + (if i < |s| then s[i] else 0) * Pow(BASE, i)
  {
    if i < |s| {
      ValuePrefix(s, i);
    } else {
      assert 0 * Pow(BASE, i) == 0;
      assert s[..|s|] == s;
    }
  }

  /** Both loops of `diff`. */
  method Differences(c: array<Word>, a: Bigint, b: Bigint)
    requires a.Valid() && b.Valid() && 0 < b.wds <= a.wds <= c.Length && c != a.x && c != b.x && b.Val() <= a.Val()
    modifies c
    ensures Value(c[..a.wds]) == a.Val() - b.Val()
  {
    hide Value, Pow;
    ghost var s, t := a.Words(), b.Words();
    var i, borrow: nat := 0, 0;
    assert c[..0] == s[..0] == t[..0] == [];
    Nothing();
    while i < a.wds
      invariant 0 <= i <= a.wds && borrow <= 1
      invariant Value(c[..i]) + Low(t, i) == Value(s[..i]) + borrow * Pow(BASE, i)
    {
      var z, next := DiffWord(a.x[i], if i < b.wds then b.x[i] else 0, borrow);
      DiffStep(Value(c[..i]), Low(t, i), Value(s[..i]), a.x[i], if i < b.wds then b.x[i] else 0, borrow, z, next,
               Pow(BASE, i));
      LowStep(t, i);
      ValuePrefix(s, i);
      SetPrefix(c[..], i, z);
      NextPow(i);
      assert c[..][..i] == c[..i];
      c[i] := z;
      borrow := next;
      assert c[..][..i + 1] == c[..i + 1];
      i := i + 1;
    }
    assert s[..i] == s && (if i <= |t| then t[..i] else t) == t;
    ValueBound(c[..i]);
    NoBorrow(Value(c[..i]), b.Val(), a.Val(), borrow, Pow(BASE, i));
  }

  lemma Nothing()
    ensures Value([]) == 0 && Low([], 0) == 0
  {
  }

  lemma NoBorrow(v: nat, u: nat, w: nat, borrow: nat, p: nat)
    requires v + u == w + borrow * p && u <= w && v < p && borrow <= 1
    ensures v + u == w
  {
    assert borrow * p == if borrow == 1 then p else 0;
  }

  /** `diff`: the absolute difference, and whether the second number is the larger. */
  method Diff(a0: Bigint, b0: Bigint) returns (c: Bigint, sign: bool)
    requires a0.Valid() && b0.Valid() && Normal(a0.Words()) && Normal(b0.Words()) && a0.wds > 0 && b0.wds > 0
    ensures fresh(c) && fresh(c.x) && c.Valid() && Normal(c.Words()) && c.wds > 0
    ensures if sign then b0.Val() > a0.Val() && c.Val() == b0.Val() - a0.Val()
            else a0.Val() >= b0.Val() && c.Val() == a0.Val() - b0.Val()
  {
    hide Value, Pow;
    var i := Cmp(a0, b0);
    if i == 0 {
      c := new Bigint(1);
      c.x[0] := 0;
      c.wds := 1;
      assert c.Words() == [0];
      Zeros(c.Words());
      return c, false;
    }
    sign := i < 0;
    var a, b := a0, b0;
    if sign { a, b := b0, a0; }
    if a.wds < b.wds { LongerIsLarger(a.Words(), b.Words()); }
    c := new Bigint(a.wds);
    Differences(c.x, a, b);
    var wa := TopWordAt(c.x, a.wds);
    c.wds := wa;
  }

  /** The last loop of `diff`, which stops because the difference is not zero. */
  method TopWordAt(x: array<Word>, n: nat) returns (wa: nat)
    requires n <= x.Length && Value(x[..n]) > 0
    ensures 0 < wa <= n && x[wa - 1] != 0 && Value(x[..wa]) == Value(x[..n])
  {
    hide Value;
    wa := n;
    AllZero(x[..0]);
    while x[wa - 1] == 0
      invariant 0 < wa <= n && Value(x[..wa]) == Value(x[..n])
      decreases wa
    {
      ValueZeros(x[..wa], wa - 1);
      assert x[..wa][..wa - 1] == x[..wa - 1];
      wa := wa - 1;
    }
  }

  lemma AllZero(s: seq<Word>)
    requires s == []
    ensures Value(s) == 0
  {
  }
}
