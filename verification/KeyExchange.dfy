/** The key exchange of lua-crypt.c: modular powers of 64-bit numbers without a wider type. */
module KeyExchange {
  import opened Common

  const WORD := 0x1_0000_0000_0000_0000

  /** The largest 64-bit prime. */
  const P := 0xffff_ffff_ffff_ffc5

  lemma PrimeIs()
    ensures P == Pow(2, 64) - 59 && WORD == Pow(2, 64)
  {
    hide Pow;
    ByteWidths();
    PowPow(2, 8, 8);
    PowTwice(2, 4);
    PowTwice(2, 2);
    PowTwice(2, 1);
    PowStep(2, 1);
    PowStep(2, 0);
  }

  type Word = x: int | 0 <= x < WORD

  /** What a 64-bit variable holds after it is assigned `x`. */
  function Wrap(x: int): Word { x % WORD }

  // ----- congruence modulo P -----

  /** `x` and `y` differ by `c` times P. */
  lemma Same(x: int, y: int, c: int)
    requires x == y + c * P
    ensures x % P == y % P
  {
    var q := y / P;
    assert x == (q + c) * P + y % P;
    Unique(x, q + c, y % P);
  }

  lemma Unique(x: int, q: int, r: int)
    requires x == q * P + r && 0 <= r < P
    ensures x % P == r
  {
  }

  lemma TimesMod(x: nat, y: nat)
    ensures ((x % P) * y) % P == (x * y) % P
  {
    var q := x / P;
    assert x == q * P + x % P;
    assert x * y == (x % P) * y + (q * y) * P;
    Same(x * y, (x % P) * y, q * y);
  }

  lemma TimesMods(x: nat, y: nat)
    ensures ((x % P) * (y % P)) % P == (x * y) % P
  {
    TimesMod(x, y % P);
    assert x * (y % P) == (y % P) * x && x * y == y * x;
    TimesMod(y, x);
  }

  lemma {:induction false} PowMod(x: nat, b: nat)
    ensures Pow(x % P, b) % P == Pow(x, b) % P
  {
    if b > 0 {
      PowMod(x, b - 1);
      var u, v := Pow(x % P, b - 1), Pow(x, b - 1);
      TimesMods(x, v);
      TimesMods(x % P, u);
      assert (x % P) % P == x % P;
    }
  }

  lemma {:induction false} PowProduct(a: nat, b: nat, n: nat)
    ensures Pow(a * b, n) == Pow(a, n) * Pow(b, n)
  {
    if n > 0 {
      PowProduct(a, b, n - 1);
      Regroup(a, b, Pow(a, n - 1), Pow(b, n - 1));
    }
  }

  lemma Regroup(a: nat, b: nat, x: nat, y: nat)
    ensures (a * b) * (x * y) == (a * x) * (b * y)
  {
    assert (a * b) * (x * y) == a * (b * x) * y;
    assert b * x == x * b;
    assert a * (x * b) * y == (a * x) * (b * y);
  }

  // ----- the three functions -----

  /** `mul_mod_p`: doubling and adding, where no intermediate value exceeds 64 bits or, if it
      wraps, the wrapped value is the right one. The argument `a` may be P itself. */
  method MulModP(a: Word, b: Word) returns (m: Word)
    requires a <= P
    ensures m == (a * b) % P
  {
    m := 0;
    var x, y := a, b;
    while y != 0
      invariant 0 <= x <= P && 0 <= y && (m < P)
      invariant (m + x * y) % P == (a * b) % P
      decreases y
    {
      ghost var m0, x0, y0 := m, x, y;
      if y % 2 == 1 {
        var t := Wrap(P - x);
        AddWraps(m, x);
        if m >= t { m := Wrap(m - t); } else { m := Wrap(m + x); }
      }
      DoubleWraps(x);
      if x >= Wrap(P - x) { x := Wrap(Wrap(x * 2) - P); } else { x := Wrap(x * 2); }
      y := y / 2;
      MulStep(m0, x0, y0, m, x, y);
      hide Wrap;
    }
    assert m + x * y == m;
  }

  /** A sum that would exceed 64 bits, or P, is taken as a difference. */
  lemma AddWraps(m: int, x: int)
    requires 0 <= m < P && 0 <= x <= P
    ensures Wrap(P - x) == P - x
    ensures m >= P - x ==> Wrap(m - (P - x)) == m + x - P && 0 <= m + x - P < P
    ensures m < P - x ==> Wrap(m + x) == m + x < P
  {
  }

  /** Doubling may wrap; subtracting P wraps back. */
  lemma DoubleWraps(x: int)
    requires 0 <= x <= P
    ensures Wrap(P - x) == P - x
    ensures x >= P - x ==> Wrap(Wrap(x * 2) - P) == 2 * x - P && 0 <= 2 * x - P <= P
    ensures x < P - x ==> Wrap(x * 2) == 2 * x < P
  {
  }

  lemma MulStep(m0: int, x0: int, y0: int, m: int, x: int, y: int)
    requires y == y0 / 2 && y0 >= 0
    requires m == m0 + (if y0 % 2 == 1 then x0 else 0) || m == m0 + (if y0 % 2 == 1 then x0 else 0) - P
    requires x == 2 * x0 || x == 2 * x0 - P
    ensures (m + x * y) % P == (m0 + x0 * y0) % P
  {
    var odd := y0 % 2;
    assert y0 == 2 * y + odd;
    var d := if m == m0 + (if odd == 1 then x0 else 0) then 0 else 1;
    var e := if x == 2 * x0 then 0 else 1;
    assert x * y == 2 * x0 * y - e * y * P;
    assert x0 * y0 == 2 * x0 * y + x0 * odd;
    assert m + x * y == m0 + x0 * y0 + (-(d + e * y)) * P;
    Same(m + x * y, m0 + x0 * y0, -(d + e * y));
  }

  /** `pow_mod_p`. A base of P is only reduced when it gets multiplied. */
  method PowModP(a: Word, b: Word) returns (r: Word)
    requires a <= P && b >= 1
    ensures r == if b == 1 then a else Pow(a, b) % P
    decreases b
  {
    if b == 1 { return a; }
    var t := PowModP(a, b / 2);
    HalfPower(a, b / 2, t);
    r := MulModP(t, t);
    if b % 2 == 1 {
      OddPower(a, b / 2, r);
      r := MulModP(r, a);
    }
  }

  lemma HalfPower(a: nat, h: nat, t: nat)
    requires a <= P && h >= 1 && t == if h == 1 then a else Pow(a, h) % P
    ensures t <= P && (t * t) % P == Pow(a, 2 * h) % P
  {
    PowAdd(a, h, h);
    if h == 1 {
      assert Pow(a, 1) == a * Pow(a, 0) == a;
    } else {
      TimesMods(Pow(a, h), Pow(a, h));
    }
  }

  lemma OddPower(a: nat, h: nat, r: nat)
    requires r == Pow(a, 2 * h) % P
    ensures (r * a) % P == Pow(a, 2 * h + 1) % P
  {
    TimesMod(Pow(a, 2 * h), a);
    assert Pow(a, 2 * h + 1) == a * Pow(a, 2 * h) == Pow(a, 2 * h) * a;
  }

  /** What `powmodp` returns: the power modulo P, with one exception. */
  function PowModSpec(a: Word, b: Word): nat
  {
    if a == P && b == 1 then P else Pow(a, b) % P
  }

  /** `powmodp` for an exponent that the callers let through. */
  method PowMod64(a: Word, b: Word) returns (r: Word)
    requires b >= 1
    ensures r == PowModSpec(a, b)
  {
    var x := a;
    if x > P { x := x % P; }
    r := PowModP(x, b);
    PowReduced(a, b);
    if b == 1 { PowOne(a); }
  }

  lemma PowOne(a: nat)
    ensures Pow(a, 1) == a
  {
  }

  lemma PowReduced(a: Word, b: nat)
    ensures Pow(a % P, b) % P == Pow(a, b) % P
    ensures a < P ==> a % P == a
  {
    PowMod(a, b);
    if a < P { Unique(a, 0, a); }
  }

  /** The power modulo P is returned unless the base is P and the exponent 1. */
  lemma WhenPower(a: Word, b: Word)
    requires b >= 1
    ensures PowModSpec(a, b) == Pow(a, b) % P <==> !(a == P && b == 1)
  {
    if a == P && b == 1 {
      PowOne(P);
      Unique(P, 1, 0);
    }
  }

  // ----- the exchange -----

  const G: Word := 5

  /** `ldhexchange` */
  method Exchange(key: seq<Byte>) returns (r: Option<seq<Byte>>)
    ensures r == ExchangeSpec(key)
  {
    if |key| != 8 { return None; }
    ByteWidths();
    var x := FromBytes(key);
    if x == 0 { return None; }
    var p := PowMod64(G, x);
    r := Some(ToBytes(p, 8));
  }

  /** `ldhsecret` */
  method Secret(theirs: seq<Byte>, key: seq<Byte>) returns (r: Option<seq<Byte>>)
    ensures r == SecretSpec(theirs, key)
  {
    if |theirs| != 8 || |key| != 8 { return None; }
    ByteWidths();
    var x, y := FromBytes(theirs), FromBytes(key);
    if x == 0 || y == 0 { return None; }
    var p := PowMod64(x, y);
    r := Some(ToBytes(p, 8));
  }

  function ExchangeSpec(key: seq<Byte>): Option<seq<Byte>> {
    if |key| != 8 || FromBytes(key) == 0 then None
    else ByteWidths(); Some(ToBytes(PowModSpec(G, FromBytes(key)), 8))
  }

  function SecretSpec(theirs: seq<Byte>, key: seq<Byte>): Option<seq<Byte>> {
    if |theirs| != 8 || |key| != 8 || FromBytes(theirs) == 0 || FromBytes(key) == 0 then None
    else ByteWidths(); Some(ToBytes(PowModSpec(FromBytes(theirs), FromBytes(key)), 8))
  }

  /** Five has an inverse modulo P. */
  const FIFTH := 7378697629483820623

  lemma {:induction false} PowOfOne(n: nat)
    ensures Pow(1 + 2 * P, n) % P == 1
  {
    if n > 0 {
      PowOfOne(n - 1);
      TimesMods(1 + 2 * P, Pow(1 + 2 * P, n - 1));
      Unique(1 + 2 * P, 2, 1);
    } else {
      Unique(1, 0, 1);
    }
  }

  lemma NoneOfNothing(x: int)
    ensures 0 * x == 0
  {
  }

  /** No power of five is a multiple of P. */
  lemma PowerNotZero(n: nat)
    ensures Pow(5, n) % P != 0
  {
    PowProduct(5, FIFTH, n);
    assert 5 * FIFTH == 1 + 2 * P;
    PowOfOne(n);
    TimesMod(Pow(5, n), Pow(FIFTH, n));
    NoneOfNothing(Pow(FIFTH, n));
  }

  /** What one side sends is never what the other side would refuse. */
  lemma ExchangeAccepted(key: seq<Byte>)
    requires |key| == 8 && FromBytes(key) != 0
    ensures
      var r := ExchangeSpec(key);
      r.Some? && |r.value| == 8 && FromBytes(r.value) == Pow(5, FromBytes(key)) % 0xffff_ffff_ffff_ffc5 != 0
  {
    ByteWidths();
    PowerNotZero(FromBytes(key));
    BytesBack(PowModSpec(G, FromBytes(key)), 8);
  }

  /** Both sides compute the same secret, for all private keys. */
  lemma SameSecret(a: seq<Byte>, b: seq<Byte>)
    requires |a| == 8 && |b| == 8 && FromBytes(a) != 0 && FromBytes(b) != 0
    ensures
      var ours, theirs := ExchangeSpec(a), ExchangeSpec(b);
      ours.Some? && theirs.Some? &&
      SecretSpec(theirs.value, a).Some? && SecretSpec(theirs.value, a) == SecretSpec(ours.value, b)
  {
    ExchangeAccepted(a);
    ExchangeAccepted(b);
    var x, y := FromBytes(a), FromBytes(b);
    ByteWidths();
    PowerSwap(x, y);
  }

  /** The secret is the power of five whose exponent is the product of the two private keys. */
  lemma SecretIs(a: seq<Byte>, theirs: seq<Byte>, y: nat)
    requires |a| == 8 && FromBytes(a) != 0 && |theirs| == 8 && FromBytes(theirs) == Pow(5, y) % P != 0
    ensures
      var r := SecretSpec(theirs, a);
      r.Some? && |r.value| == 8 && FromBytes(r.value) == Pow(5, y * FromBytes(a)) % 0xffff_ffff_ffff_ffc5
  {
    hide Pow, FromBytes;
    ByteWidths();
    var x, base := FromBytes(a), FromBytes(theirs);
    PowMod(Pow(5, y), x);
    PowPow(5, y, x);
    BytesBack(PowModSpec(base, x), 8);
  }

  lemma PowerSwap(x: nat, y: nat)
    ensures Pow(Pow(5, x) % P, y) % P == Pow(Pow(5, y) % P, x) % P
  {
    PowMod(Pow(5, x), y);
    PowMod(Pow(5, y), x);
    PowPow(5, x, y);
    PowPow(5, y, x);
    assert x * y == y * x;
  }
}
