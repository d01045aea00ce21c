/** The big integers of dtoa.c: 32-bit words, the lowest first, updated in place by carry and borrow loops. */
module Bignum {
  import opened Common

  const BASE := 0x1_0000_0000

  type Word = x: int | 0 <= x < BASE

  /** What a sequence of words stands for. */
  function Value(s: seq<Word>): nat {
    if s == [] then 0 else Value(s[..|s| - 1]) + s[|s| - 1] * Pow(BASE, |s| - 1)
  }

  lemma ValuePush(s: seq<Word>, w: Word)
    ensures Value(s + [w]) == Value(s) + w * Pow(BASE, |s|)
  {
    assert (s + [w])[..|s + [w]| - 1] == s;
  }

  lemma {:induction false} ValueBound(s: seq<Word>)
    ensures Value(s) < Pow(BASE, |s|)
  {
    if s != [] {
      var n := |s| - 1;
      ValueBound(s[..n]);
      Below(Value(s[..n]), s[n], Pow(BASE, n));
    }
  }

  lemma Times(a: int, b: int, c: int)
    requires a <= b && 0 <= c
    ensures a * c <= b * c
  {
  }

  lemma Distribute(a: int, b: int, c: int)
    ensures (a + b) * c == a * c + b * c
  {
  }

  lemma Below(v: nat, w: nat, p: nat)
    requires v < p && w < BASE
    ensures v + w * p < BASE * p
  {
    Times(w + 1, BASE, p);
    Distribute(w, 1, p);
  }

  /** Leading zero words do not count. */
  lemma {:induction false} ValueZeros(s: seq<Word>, n: nat)
    requires n <= |s| && forall k :: n <= k < |s| ==> s[k] == 0
    ensures Value(s) == Value(s[..n])
  {
    if |s| == n {
      assert s[..n] == s;
    } else {
      ValueZeros(s[..|s| - 1], n);
      assert s[..|s| - 1][..n] == s[..n];
    }
  }

  lemma ValuePrefix(s: seq<Word>, i: nat)
    requires i < |s|
    ensures Value(s[..i + 1]) == Value(s[..i]) + s[i] * Pow(BASE, i)
  {
    assert s[..i + 1] == s[..i] + [s[i]];
    ValuePush(s[..i], s[i]);
  }

  /** A number whose highest word is not zero has no shorter form. */
  lemma ValueLeast(s: seq<Word>)
    requires s != [] && s[|s| - 1] != 0
    ensures Value(s) >= Pow(BASE, |s| - 1)
  {
    var p := Pow(BASE, |s| - 1);
    assert s[|s| - 1] * p >= p;
  }

  lemma {:induction false} PowMonotone(m: nat, n: nat)
    requires m <= n
    ensures Pow(BASE, m) <= Pow(BASE, n)
  {
    if m < n {
      PowMonotone(m, n - 1);
      assert BASE * Pow(BASE, n - 1) >= Pow(BASE, n - 1);
    }
  }

  /** In the form without superfluous words; a zero that `quorem` leaves may have no word at all. */
  predicate Normal(s: seq<Word>) { |s| > 1 ==> s[|s| - 1] != 0 }

  /** More words, larger number. */
  lemma LongerIsLarger(a: seq<Word>, b: seq<Word>)
    requires Normal(b) && |a| < |b| && |b| > 1
    ensures Value(a) < Value(b)
  {
    ValueBound(a);
    ValueLeast(b);
    PowMonotone(|a|, |b| - 1);
  }

  lemma ShorterIsLess(a: seq<Word>, b: seq<Word>)
    requires |a| < |b| && b[|b| - 1] != 0
    ensures Value(a) < Value(b)
  {
    ValueBound(a);
    ValueLeast(b);
    PowMonotone(|a|, |b| - 1);
  }

  /** The difference of two numbers with the same number of words shows at the highest word that differs. */
  lemma {:induction false} HighestDiffers(a: seq<Word>, b: seq<Word>, k: nat)
    requires |a| == |b| && k < |a| && a[k] < b[k]
    requires forall j :: k < j < |a| ==> a[j] == b[j]
    ensures Value(a) < Value(b)
  {
    var n := |a| - 1;
    if k == n {
      ValueBound(a[..n]);
      Dominates(Value(a[..n]), a[n], Value(b[..n]), b[n], Pow(BASE, n));
    } else {
      HighestDiffers(a[..n], b[..n], k);
    }
  }

  lemma Dominates(v: nat, x: nat, w: nat, y: nat, p: nat)
    requires v < p && x < y
    ensures v + x * p < w + y * p
  {
    assert (x + 1) * p <= y * p;
  }

  class Bigint {
    var x: array<Word>
    var wds: nat

    ghost predicate Valid()
      reads this
    {
      0 < x.Length && wds <= x.Length
    }

    /** The words in use. */
    ghost function Words(): seq<Word>
      requires Valid()
      reads this, x
    {
      x[..wds]
    }

    ghost function Val(): nat
      requires Valid()
      reads this, x
    {
      Value(Words())
    }

    /** `Balloc`, for numbers of up to `n` words. */
    constructor (n: nat)
      requires n > 0
      ensures Valid() && fresh(x) && x.Length == n && wds == 0
      ensures forall k :: 0 <= k < n ==> x[k] == 0
    {
      x := new Word[n](_ => 0);
      wds := 0;
    }
  }

  /** What the numbers of words alone say. */
  lemma ByWords(a: seq<Word>, b: seq<Word>)
    requires Normal(a) && Normal(b) && |a| < |b|
    ensures Value(a) < Value(b) || (a == [] && b == [0])
    ensures a == [] && b == [0] ==> Value(a) == Value(b)
  {
    if |b| > 1 {
      LongerIsLarger(a, b);
    } else {
      assert b == [] + [b[0]];
      ValuePush([], b[0]);
      assert Pow(BASE, 0) == 1;
    }
  }

  /** `cmp`. Where a zero without a word meets a zero of one word the latter counts as larger; the function
      reads a word of each if they have the same number of words. */
  method Cmp(a: Bigint, b: Bigint) returns (r: int)
    requires a.Valid() && b.Valid() && Normal(a.Words()) && Normal(b.Words())
    requires a.wds > 0 || b.wds > 0
    ensures r < 0 <==> a.Val() < b.Val() || (a.Val() == b.Val() && a.wds < b.wds)
    ensures r > 0 <==> a.Val() > b.Val() || (a.Val() == b.Val() && b.wds < a.wds)
    ensures a.wds != b.wds && a.Val() == b.Val() ==> a.Val() == 0 && (a.wds == 0 || b.wds == 0)
  {
    if a.wds != b.wds {
      r := a.wds - b.wds;
      if a.wds < b.wds { ByWords(a.Words(), b.Words()); } else { ByWords(b.Words(), a.Words()); }
      return;
    }
    var k := a.wds;
    ghost var s, t := a.Words(), b.Words();
    while true
      invariant 0 < k <= a.wds
      invariant forall j :: k <= j < a.wds ==> a.x[j] == b.x[j]
      decreases k
    {
      k := k - 1;
      if a.x[k] != b.x[k] {
        assert s[k] == a.x[k] && t[k] == b.x[k];
        if a.x[k] < b.x[k] {
          HighestDiffers(s, t, k);
          return -1;
        }
        HighestDiffers(t, s, k);
        return 1;
      }
      if k <= 0 { break; }
    }
    assert s == t;
    return 0;
  }

  /** One word of a product with a small number. */
  lemma MulStep(v: nat, u: nat, w: nat, m: nat, a: nat, carry: nat, x: nat, next: nat, p: nat)
    requires v + carry * p == u * m + a
    requires w * m + carry == x + next * BASE
    ensures (v + x * p) + next * (BASE * p) == (u + w * p) * m + a
  {
    assert next * (BASE * p) == (next * BASE) * p;
    Distribute(x, next * BASE, p);
    Distribute(w * m, carry, p);
    Distribute(u, w * p, m);
    assert w * p * m == w * m * p;
  }

  lemma CarryFits(w: nat, m: nat, carry: nat)
    requires w < BASE && m < BASE && carry < BASE
    ensures (w * m + carry) / BASE < BASE
  {
    Times(w, BASE - 1, m);
    Times(m, BASE - 1, BASE - 1);
    Quotient(w * m + carry, BASE);
  }

  lemma Quotient(x: nat, b: nat)
    requires b > 0 && x < b * b
    ensures x / b < b
  {
    if x / b >= b { Times(b, x / b, b); }
  }

  lemma SetPrefix(s: seq<Word>, i: nat, w: Word)
    requires i < |s|
    ensures s[i := w][..i] == s[..i]
    ensures Value(s[i := w][..i + 1]) == Value(s[..i]) + w * Pow(BASE, i)
  {
    ValuePrefix(s[i := w], i);
  }

  /** The loop of `multadd`. */
  method Scale(x: array<Word>, n: nat, m: nat, a: nat) returns (carry: nat)
    requires n <= x.Length && m < BASE && a < BASE
    modifies x
    ensures carry < BASE
    ensures Value(x[..n]) + carry * Pow(BASE, n) == old(Value(x[..n])) * m + a
    ensures forall k :: n <= k < x.Length ==> x[k] == old(x[k])
  {
    ghost var was := x[..];
    var i := 0;
    carry := a;
    while i < n
      invariant 0 <= i <= n && carry < BASE
      invariant forall k :: i <= k < x.Length ==> x[k] == was[k]
      invariant Value(x[..i]) + carry * Pow(BASE, i) == Value(was[..i]) * m + a
    {
      var y := x[i] * m + carry;
      CarryFits(x[i], m, carry);
      MulStep(Value(x[..i]), Value(was[..i]), x[i], m, a, carry, y % BASE, y / BASE, Pow(BASE, i));
      SetPrefix(x[..], i, y % BASE);
      ValuePrefix(was, i);
      assert x[..][..i] == x[..i];
      x[i] := y % BASE;
      carry := y / BASE;
      assert x[..][..i + 1] == x[..i + 1];
      i := i + 1;
    }
    assert was[..n] == old(x[..n]);
  }

  /** Without a carry the product has as many words as the number. */
  lemma StaysNormal(was: seq<Word>, now: seq<Word>, m: nat, a: nat)
    requires |was| == |now| && m > 0 && Normal(was) && Value(now) == Value(was) * m + a
    ensures Normal(now)
  {
    hide Value, Pow;
    if |now| > 1 {
      var n := |now| - 1;
      ValueLeast(was);
      ValueBound(now[..n]);
      AtLeast(Value(was), m, a);
      if now[n] == 0 { ValueZeros(now, n); }
    }
  }

  lemma AtLeast(v: nat, m: nat, a: nat)
    requires m > 0
    ensures v * m + a >= v
  {
    Times(1, m, v);
  }

  /** `multadd`: `b` times `m` plus `a`, in place if it fits, else in a copy with more room. */
  method MultAdd(b: Bigint, m: nat, a: nat) returns (r: Bigint)
    requires b.Valid() && b.wds > 0 && m < BASE && a < BASE
    modifies b, b.x
    ensures r.Valid() && (r == b || (fresh(r) && fresh(r.x))) && (r == b ==> r.x == old(b.x))
    ensures r.Val() == old(b.Val()) * m + a
    ensures r.wds > 0
    ensures m > 0 && Normal(old(b.Words())) ==> Normal(r.Words())
  {
    var n := b.wds;
    var carry := Scale(b.x, n, m, a);
    r := b;
    ghost var low := b.x[..n];
    if carry != 0 {
      if n >= b.x.Length {
        r := new Bigint(b.x.Length * 2);
        forall k | 0 <= k < n { r.x[k] := b.x[k]; }
      }
      r.x[n] := carry;
      r.wds := n + 1;
      assert r.Words() == low + [carry];
      ValuePush(low, carry);
    } else {
      assert r.Words() == low;
      if m > 0 && Normal(old(b.Words())) { StaysNormal(old(b.Words()), low, m, a); }
    }
  }

  const LONG := 0x1_0000_0000_0000_0000

  /** What an unsigned 64-bit variable holds after it is assigned `x`. */
  function Wrap(x: int): int { x % LONG }

  /** Bit 32 of a difference of words, computed in 64 bits, is the borrow. */
  lemma BorrowBit(d: int)
    requires -BASE <= d < BASE
    ensures (Wrap(d) / BASE) % 2 == if d < 0 then 1 else 0
    ensures Wrap(d) % BASE == if d < 0 then d + BASE else d
  {
  }

  /** One word of a difference. */
  lemma SubStep(v: nat, u: nat, w: nat, q: nat, s: nat, x: int, x': nat, borrow: nat, carry: nat, borrow': nat,
                carry': nat, p: nat)
    requires v + q * u == w + (borrow + carry) * p
    requires x' + q * s + carry + borrow == x + (borrow' + carry') * BASE
    ensures (v + x' * p) + q * (u + s * p) == (w + x * p) + (borrow' + carry') * (BASE * p)
  {
    var c, c' := borrow + carry, borrow' + carry';
    assert c' * (BASE * p) == (c' * BASE) * p;
    Distribute(x, c' * BASE, p);
    Distribute(x' + q * s, c, p);
    Distribute(x', q * s, p);
    assert q * (u + s * p) == q * u + q * s * p by {
      Distribute(u, s * p, q);
      assert s * p * q == q * s * p;
    }
  }

  /** One round of the loops of `quorem`. */
  method SubtractWord(x: Word, s: Word, q: nat, carry: nat, borrow: nat) returns (w: Word, borrow': nat, carry': nat)
    requires q < BASE && carry < BASE && borrow <= 1
    ensures borrow' <= 1 && carry' < BASE
    ensures w + q * s + carry + borrow == x + (borrow' + carry') * BASE
  {
    CarryFits(s, q, carry);
    var ys := s * q + carry;
    var d := x - ys % BASE - borrow;
    BorrowBit(d);
    carry' := ys / BASE;
    borrow' := (Wrap(d) / BASE) % 2;
    w := Wrap(d) % BASE;
    assert s * q == q * s;
  }

  /** The loops of `quorem`: `q` times `s` is taken off `x`, with a carry of the product and a borrow of the
      difference. */
  method Subtract(x: array<Word>, s: array<Word>, n: nat, q: nat) returns (ghost left: nat)
    requires n <= x.Length && n <= s.Length && x != s && q < BASE
    modifies x
    ensures Value(x[..n]) + q * Value(s[..n]) == old(Value(x[..n])) + left * Pow(BASE, n)
    ensures forall k :: n <= k < x.Length ==> x[k] == old(x[k])
  {
    ghost var was := x[..];
    var i, carry: nat, borrow: nat := 0, 0, 0;
    assert x[..0] == was[..0] == s[..0] == [];
    while i < n
      invariant 0 <= i <= n && carry < BASE && borrow <= 1
      invariant forall k :: i <= k < x.Length ==> x[k] == was[k]
      invariant Value(x[..i]) + q * Value(s[..i]) == Value(was[..i]) + (borrow + carry) * Pow(BASE, i)
    {
      hide Value, Pow;
      var w, b, c := SubtractWord(x[i], s[i], q, carry, borrow);
      SubStep(Value(x[..i]), Value(s[..i]), Value(was[..i]), q, s[i], x[i], w, borrow, carry, b, c, Pow(BASE, i));
      SetPrefix(x[..], i, w);
      ValuePrefix(was, i);
      ValuePrefix(s[..], i);
      NextPow(i);
      assert x[..][..i] == x[..i] && s[..][..i] == s[..i] && s[..][..i + 1] == s[..i + 1];
      x[i] := w;
      borrow, carry := b, c;
      assert x[..][..i + 1] == x[..i + 1];
      i := i + 1;
    }
    left := borrow + carry;
    assert was[..n] == old(x[..n]);
  }

  lemma NextPow(n: nat)
    ensures Pow(BASE, n + 1) == BASE * Pow(BASE, n)
  {
  }

  /** The estimate of `quorem` from the highest words is never too large, and too small by one at most
      if it is less than the highest word of the divisor. */
  lemma Estimate(v: nat, t: nat, vl: nat, bt: nat, tl: nat, st: nat, p: nat)
    requires v == vl + bt * p && vl < p && t == tl + st * p && tl < p
    requires bt / (st + 1) < st
    ensures var q := bt / (st + 1); q * t <= v < (q + 2) * t
  {
    var q := bt / (st + 1);
    assert q * (st + 1) <= bt && bt + 1 <= (q + 1) * (st + 1) by { Divides(bt, st + 1); }
    Lower(v, t, q, bt, tl, st, p);
    Upper(v, t, vl, q, bt, tl, st, p);
  }

  lemma NoLarger(x: nat, d: nat)
    requires d > 0
    ensures 0 <= x / d <= x
  {
    Divides(x, d);
    if x / d > x { Times(1, d, x / d); }
  }

  lemma Divides(x: nat, d: nat)
    requires d > 0
    ensures (x / d) * d <= x && x + 1 <= (x / d + 1) * d
  {
    Distribute(x / d, 1, d);
  }

  lemma Lower(v: nat, t: nat, q: nat, bt: nat, tl: nat, st: nat, p: nat)
    requires bt * p <= v && t == tl + st * p && tl < p && q * (st + 1) <= bt
    ensures q * t <= v
  {
    Distribute(st, 1, p);
    assert t <= (st + 1) * p;
    Times(t, (st + 1) * p, q);
    assert ((st + 1) * p) * q == (q * (st + 1)) * p;
    Times(q * (st + 1), bt, p);
    assert t * q == q * t;
  }

  lemma Upper(v: nat, t: nat, vl: nat, q: nat, bt: nat, tl: nat, st: nat, p: nat)
    requires v == vl + bt * p && vl < p && t == tl + st * p && bt + 1 <= (q + 1) * (st + 1) && q < st
    ensures v < (q + 2) * t
  {
    Distribute(bt, 1, p);
    Times(bt + 1, (q + 1) * (st + 1), p);
    assert (q + 1) * (st + 1) == (q + 1) * st + (q + 1) by { Distribute(st, 1, q + 1); }
    Times((q + 1) * (st + 1), (q + 2) * st, p) by {
      Distribute(q + 1, 1, st);
    }
    assert ((q + 2) * st) * p == (st * p) * (q + 2);
    Times(st * p, t, q + 2);
    assert t * (q + 2) == (q + 2) * t;
  }

  /** Nothing is left over if the product is no larger than the number. */
  lemma NothingLeft(v: nat, v': nat, x: nat, left: nat, p: nat)
    requires v' + x == v + left * p && x <= v && v' < p
    ensures left == 0
  {
    if left > 0 { Times(1, left, p); }
  }

  /** The end of `quorem`: superfluous words are dropped, down to none at all for a single word that is zero. */
  method Shrink(b: Bigint, n: nat)
    requires b.Valid() && b.wds == n + 1
    modifies b`wds
    ensures b.Valid() && b.wds <= n + 1 && Normal(b.Words())
    ensures b.Val() == old(b.Val()) && (b.wds == 0 ==> b.x[0] == 0)
  {
    if b.x[n] == 0 {
      var k, e: int := n, n - 1;
      while e > 0 && b.x[e] == 0
        invariant e == k - 1 && 0 <= k <= n
        invariant forall j :: k <= j <= n ==> b.x[j] == 0
      {
        k := k - 1;
        e := e - 1;
      }
      ValueZeros(b.Words(), k);
      assert b.x[..n + 1][..k] == b.x[..k];
      b.wds := k;
    }
  }

  /** The highest word of the divisor is larger than the estimated quotient. */
  ghost predicate Estimable(b: Bigint, s: Bigint)
    requires b.Valid() && s.Valid()
    reads b, b.x, s, s.x
  {
    var n := s.wds;
    n > 0 && s.x[n - 1] < BASE - 1 && (b.wds == n ==> (b.x[n - 1] as int) / (s.x[n - 1] as int + 1) < s.x[n - 1])
  }

  /** Four leading zero bits, which `dshift` arranges for, are more than enough. */
  lemma FourZeroBits(bt: nat, st: nat)
    requires bt < BASE && 0x800_0000 <= st < 0x1000_0000
    ensures bt / (st + 1) < st < BASE - 1
  {
    if bt / (st + 1) >= st {
      Divides(bt, st + 1);
      Times(st, bt / (st + 1), st + 1);
      Times(0x800_0000, st, st + 1);
    }
  }

  /** `q` times `s` is taken off `b`, and superfluous words are dropped. */
  method TakeOff(b: Bigint, s: Bigint, q: nat)
    requires b.Valid() && s.Valid() && b != s && b.x != s.x && b.wds == s.wds > 0 && q < BASE
    requires q * s.Val() <= b.Val()
    modifies b, b.x
    ensures b.Valid() && b.x == old(b.x) && b.wds <= s.wds && Normal(b.Words())
    ensures b.Val() == old(b.Val()) - q * s.Val() && (b.wds == 0 ==> b.x[0] == 0)
  {
    hide Value, Pow;
    ghost var left := Subtract(b.x, s.x, s.wds, q);
    ValueBound(b.x[..s.wds]);
    NothingLeft(old(b.Val()), b.Val(), q * s.Val(), left, Pow(BASE, s.wds));
    NoTimes(left, Pow(BASE, s.wds));
    Shrink(b, s.wds - 1);
  }

  lemma NoTimes(left: nat, p: nat)
    ensures left == 0 ==> left * p == 0
  {
  }

  /** `quorem`: the quotient is returned, the remainder left in `b`. */
  method Quorem(b: Bigint, s: Bigint) returns (q: nat)
    requires b.Valid() && s.Valid() && b != s && b.x != s.x && 0 < b.wds <= s.wds
    requires Normal(b.Words()) && Estimable(b, s) && s.x[s.wds - 1] != 0
    modifies b, b.x
    ensures b.Valid() && b.x == old(b.x) && b.wds <= s.wds && Normal(b.Words())
    ensures old(b.Val()) == q * s.Val() + b.Val() && b.Val() < s.Val()
    ensures b.wds == 0 ==> b.x[0] == 0
  {
    hide Value, Pow;
    var n := s.wds;
    if b.wds < n {
      ShorterIsLess(b.Words(), s.Words());
      return 0;
    }
    n := n - 1;
    var top: nat := s.x[n];
    q := b.x[n] / (top + 1);
    ghost var v, t := b.Val(), s.Val();
    Bounds(b.Words(), s.Words(), n);
    if q != 0 {
      TakeOff(b, s, q);
    }
    Rest(v, q, t);
    var c := Cmp(b, s);
    if c >= 0 {
      if b.wds < s.wds { ShorterIsLess(b.Words(), s.Words()); }
      q := q + 1;
      TakeOff(b, s, 1);
    }
  }

  /** With an estimate that is small by one at most, one correction is enough. */
  lemma Rest(v: nat, q: nat, t: nat)
    requires q * t <= v < (q + 2) * t
    ensures 0 <= v - q * t < t + t && (q + 1) * t == q * t + t && (q == 0 ==> q * t == 0)
  {
    Distribute(q, 1, t);
    Distribute(q, 2, t);
  }

  /** What the highest words say about the quotient. */
  lemma Bounds(v: seq<Word>, t: seq<Word>, n: nat)
    requires |v| == n + 1 == |t|
    requires (v[n] as int) / (t[n] as int + 1) < t[n]
    ensures var q := (v[n] as int) / (t[n] as int + 1); 0 <= q < BASE && q * Value(t) <= Value(v) < (q + 2) * Value(t)
  {
    hide Value, Pow;
    ValuePrefix(v, n);
    ValuePrefix(t, n);
    ValueBound(v[..n]);
    ValueBound(t[..n]);
    assert v[..n + 1] == v && t[..n + 1] == t;
    NoLarger(v[n], t[n] as int + 1);
    Estimate(Value(v), Value(t), Value(v[..n]), v[n], Value(t[..n]), t[n], Pow(BASE, n));
  }
}
