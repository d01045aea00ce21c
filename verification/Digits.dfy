/** The digits that `dtoa` prints for a quotient of big integers when it is asked for a number of digits,
    and their rounding. */
module Digits {
  import opened Common
  import opened Bignum
  import opened BignumPower

  // ----- lshift -----

  lemma TwoPowers()
    ensures Pow(2, 32) == BASE
  {
    assert Pow(2, 1) == 2 * Pow(2, 0) == 2;
    hide Pow;
    PowTwice(2, 1);
    PowTwice(2, 2);
    PowTwice(2, 4);
    PowTwice(2, 8);
    PowTwice(2, 16);
  }

  /** Two to the 32 splits into two to the `k` and two to the rest. */
  lemma WordSplit(k: nat)
    requires k <= 32
    ensures Pow(2, k) * Pow(2, 32 - k) == BASE && 0 < Pow(2, k) && 0 < Pow(2, 32 - k)
  {
    hide Pow;
    PowAdd(2, k, 32 - k);
    TwoPowers();
  }

  /** A word shifted left by `k` keeps its low bits clear for what the word below pushed out,
      so that or-ing adds; what it pushes out itself are its high bits. */
  lemma ShiftWord(w: nat, a: nat, c: nat, z: nat)
    requires a > 0 && c > 0 && a * c == BASE && w < BASE && z < a
    ensures
      var low := (w % c) * a;
      low + z < BASE && w / c < a && w * a + z == (low + z) + (w / c) * BASE && low == (w * a) % BASE
  {
    var q, r := w / c, w % c;
    Euclid(w, c);
    Distribute(q * c, r, a);
    assert q * c * a == q * BASE by { Reorder(q, c, a); }
    Times(r + 1, c, a);
    Distribute(r, 1, a);
    assert c * a == BASE by { Commutes(c, a); }
    if q >= a { Times(a, q, c); }
    Modulus(w * a, q, r * a);
  }

  lemma Euclid(x: nat, d: nat)
    requires d > 0
    ensures x == (x / d) * d + x % d && x % d < d
  {
  }

  lemma Reorder(q: nat, c: nat, a: nat)
    ensures q * c * a == q * (a * c)
  {
    Commutes(c, a);
    Regroup(q, c, a);
  }

  lemma Modulus(x: nat, q: nat, r: nat)
    requires x == q * BASE + r && r < BASE
    ensures x % BASE == r
  {
  }

  /** One word of the loop of `lshift`. */
  lemma ShiftStep(v: nat, u: nat, z: nat, w: nat, a: nat, x: nat, z': nat, p: nat, pi: nat, pn: nat)
    requires v + z * p == u * a * pn && p == pi * pn
    requires w * a + z == x + z' * BASE
    ensures (v + x * p) + z' * (BASE * p) == (u + w * pi) * a * pn
  {
    assert z' * (BASE * p) == (z' * BASE) * p;
    Distribute(x, z' * BASE, p);
    Distribute(w * a, z, p);
    Distribute(u, w * pi, a);
    Distribute(u * a, w * pi * a, pn);
    assert w * pi * a * pn == w * a * p;
  }

  /** The loop of `lshift` on an array that is zero below word `n`. */
  method ShiftWords(x1: array<Word>, n: nat, x: array<Word>, wds: nat, k: nat) returns (z: nat)
    requires 0 < k < 32 && wds <= x.Length && n + wds <= x1.Length && x != x1
    requires forall j :: 0 <= j < n ==> x1[j] == 0
    modifies x1
    ensures z < BASE
    ensures Value(x1[..n + wds]) + z * Pow(BASE, n + wds) == Value(x[..wds]) * Pow(2, k) * Pow(BASE, n)
  {
    hide Value, Pow;
    var a, c := Pow(2, k), Pow(2, 32 - k);
    WordSplit(k);
    Zeros(x1[..n]);
    NothingShifted(x[..0], a, Pow(BASE, n), Pow(BASE, n + 0));
    Times(1, c, a);
    z := 0;
    var i := 0;
    while i < wds
      invariant 0 <= i <= wds && 0 <= z < a
      invariant Value(x1[..n + i]) + z * Pow(BASE, n + i) == Value(x[..i]) * a * Pow(BASE, n)
    {
      ShiftWord(x[i], a, c, z);
      var w: Word := (x[i] * a) % BASE + z;
      PowAdd(BASE, i, n);
      ShiftStep(Value(x1[..n + i]), Value(x[..i]), z, x[i], a, w, x[i] / c, Pow(BASE, n + i), Pow(BASE, i),
        Pow(BASE, n));
      SetPrefix(x1[..], n + i, w);
      ValuePrefix(x[..], i);
      NextPow(n + i);
      assert x1[..][..n + i] == x1[..n + i] && x[..][..i] == x[..i] && x[..][..i + 1] == x[..i + 1];
      x1[n + i] := w;
      z := x[i] / c;
      assert x1[..][..n + i + 1] == x1[..n + i + 1];
      i := i + 1;
    }
  }

  lemma NothingShifted(s: seq<Word>, a: nat, p: nat, p': nat)
    requires s == []
    ensures Value(s) * a * p == 0 && 0 * p' == 0
  {
  }

  /** A number that needs all its words has a highest word. */
  lemma TopWord(s: seq<Word>)
    requires s != [] && Value(s) >= Pow(BASE, |s| - 1)
    ensures s[|s| - 1] != 0
  {
    var n := |s| - 1;
    if s[n] == 0 {
      ValueZeros(s, n);
      ValueBound(s[..n]);
    }
  }

  lemma ShiftedIsLarge(v: nat, a: nat, p: nat, n: nat, wds: nat)
    requires wds > 0 && v >= Pow(BASE, wds - 1) && a > 0 && p == Pow(BASE, n)
    ensures v * a * p >= Pow(BASE, n + wds - 1)
  {
    PowAdd(BASE, wds - 1, n);
    Times(1, a, v);
    assert v * a >= v;
    Times(Pow(BASE, wds - 1), v * a, p);
  }

  /** The loop of `lshift` for a shift by whole words. */
  method CopyWords(x1: array<Word>, n: nat, x: array<Word>, wds: nat)
    requires wds <= x.Length && n + wds <= x1.Length && x != x1
    requires forall j :: 0 <= j < n ==> x1[j] == 0
    modifies x1
    ensures Value(x1[..n + wds]) == Value(x[..wds]) * 1 * Pow(BASE, n)
  {
    hide Value, Pow;
    Zeros(x1[..n]);
    var i := 0;
    NothingShifted(x[..0], 1, Pow(BASE, n), 0);
    while i < wds
      invariant 0 <= i <= wds
      invariant Value(x1[..n + i]) == Value(x[..i]) * 1 * Pow(BASE, n)
    {
      SetPrefix(x1[..], n + i, x[i]);
      ValuePrefix(x[..], i);
      PowAdd(BASE, i, n);
      CopyStep(Value(x[..i]), x[i], Pow(BASE, i), Pow(BASE, n));
      assert x1[..][..n + i] == x1[..n + i] && x[..][..i] == x[..i] && x[..][..i + 1] == x[..i + 1];
      x1[n + i] := x[i];
      assert x1[..][..n + i + 1] == x1[..n + i + 1];
      i := i + 1;
    }
  }

  /** Both loops of `lshift`. */
  method ShiftInto(b1: Bigint, n: nat, b: Bigint, k: nat)
    requires b1.Valid() && b.Valid() && b1 != b && b1.x != b.x && k < 32 && n + b.wds < b1.x.Length
    requires b.wds > 0
    requires forall j :: 0 <= j < b1.x.Length ==> b1.x[j] == 0
    modifies b1`wds, b1.x
    ensures b1.Valid() && b1.wds > 0 && (b1.wds == n + b.wds || b1.x[b1.wds - 1] != 0)
    ensures b.x[b.wds - 1] != 0 ==> b1.x[b1.wds - 1] != 0
    ensures b1.Val() == b.Val() * Pow(2, k) * Pow(BASE, n)
  {
    hide Value, Pow;
    var m := n + b.wds;
    ghost var v, p := b.Val() * Pow(2, k) * Pow(BASE, n), Pow(BASE, m);
    ghost var high := b.x[b.wds - 1] != 0;
    if high {
      ValueLeast(b.Words());
      ShiftedIsLarge(b.Val(), Pow(2, k), Pow(BASE, n), n, b.wds);
    }
    if k != 0 {
      var z := ShiftWords(b1.x, n, b.x, b.wds, k);
      ghost var low := b1.x[..m];
      b1.x[m] := z;
      b1.wds := if z != 0 then m + 1 else m;
      assert b1.x[..m] == low && b1.x[..m + 1] == low + [z];
      ValuePush(low, z);
      NoTimes(z, p);
      if z == 0 && high { TopWord(low); }
    } else {
      CopyWords(b1.x, n, b.x, b.wds);
      b1.wds := m;
      NoShift();
      if high { TopWord(b1.Words()); }
    }
  }

  lemma NoShift()
    ensures Pow(2, 0) == 1
  {
  }

  lemma CopyStep(u: nat, w: nat, pi: nat, pn: nat)
    ensures u * 1 * pn + w * (pi * pn) == (u + w * pi) * 1 * pn
  {
    Distribute(u, w * pi, pn);
    assert w * pi * pn == w * (pi * pn);
  }

  lemma ShiftSplit(v: nat, k: nat)
    ensures v * Pow(2, k % 32) * Pow(BASE, k / 32) == v * Pow(2, k)
  {
    hide Pow;
    PowAdd(2, k % 32, 32 * (k / 32));
    PowPow(2, 32, k / 32);
    TwoPowers();
    Regroup(v, Pow(2, k % 32), Pow(BASE, k / 32));
  }

  /** A zero gets a word for every word it is shifted by. */
  lemma ZeroShifted(s: seq<Word>, n: nat)
    requires s != [] && Value(s) == 0 && (|s| == n + 1 || s[|s| - 1] != 0)
    ensures Normal(s) <==> n == 0
  {
    if s[|s| - 1] != 0 { ValueLeast(s); }
  }

  /** `lshift`: `b` times two to the `k`. Only a zero that is shifted by a whole word or more gets superfluous words. */
  method LShift(b: Bigint, k: nat) returns (b1: Bigint)
    requires b.Valid() && b.wds > 0
    ensures fresh(b1) && fresh(b1.x) && b1.Valid() && b1.wds > 0
    ensures b1.Val() == b.Val() * Pow(2, k)
    ensures b.x[b.wds - 1] != 0 ==> b1.x[b1.wds - 1] != 0
    ensures b.Words() == [0] ==> (Normal(b1.Words()) <==> k < 32)
  {
    var n := k / 32;
    b1 := new Bigint(n + b.wds + 1);
    ShiftInto(b1, n, b, k % 32);
    ShiftSplit(b.Val(), k);
    if b.Words() == [0] {
      Zeros(b.Words());
      ZeroShifted(b1.Words(), n);
    }
  }

  // ----- the digits -----

  type Digit = x: int | 0 <= x < 10

  /** What a string of digits stands for. */
  function Number(ds: seq<Digit>): nat {
    if ds == [] then 0 else 10 * Number(ds[..|ds| - 1]) + ds[|ds| - 1]
  }

  lemma NumberPush(ds: seq<Digit>, d: Digit)
    ensures Number(ds + [d]) == 10 * Number(ds) + d
  {
    assert (ds + [d])[..|ds|] == ds;
  }

  lemma {:induction false} NumberBound(ds: seq<Digit>)
    ensures Number(ds) < Pow(10, |ds|)
  {
    if ds != [] { NumberBound(ds[..|ds| - 1]); }
  }

  /** The integer closest to a quotient, the even one of two. */
  function RoundHalfEven(num: nat, den: nat): nat
    requires den > 0
  {
    var q, r := num / den, num % den;
    if 2 * r > den || (2 * r == den && q % 2 == 1) then q + 1 else q
  }

  /** What is printed is no further from the quotient than half a unit, and even if it is that far. */
  lemma HalfEvenIsNearest(num: nat, den: nat)
    requires den > 0
    ensures
      var n := RoundHalfEven(num, den);
      -(den as int) <= 2 * (num - n * den) <= den &&
      (2 * (num - n * den) == den || 2 * (n * den - num) == den ==> n % 2 == 0)
  {
    var q, r := num / den, num % den;
    assert num == q * den + r && (q + 1) * den == q * den + den;
  }

  /** `ds` are the first digits of `n`, which has `size` digits; the rest are zeros. It starts and
      ends with a digit other than zero. */
  predicate Trimmed(ds: seq<Digit>, n: nat, size: nat) {
    0 < |ds| <= size && Number(ds) * Pow(10, size - |ds|) == n && ds[0] != 0 && ds[|ds| - 1] != 0
  }

  /** What the caller is to get for `n`: the digits, and one more place before the point if they overflow. */
  predicate Printed(ds: seq<Digit>, up: bool, n: nat, size: nat) {
    if n == Pow(10, size) then ds == [1] && up else Trimmed(ds, n, size) && !up
  }

  lemma DropZero(ds: seq<Digit>, n: nat, size: nat)
    requires 1 < |ds| <= size && ds[|ds| - 1] == 0 && Number(ds) * Pow(10, size - |ds|) == n
    ensures Number(ds[..|ds| - 1]) * Pow(10, size - (|ds| - 1)) == n
  {
    var p := Pow(10, size - |ds|);
    assert Pow(10, size - (|ds| - 1)) == 10 * p;
    assert Number(ds[..|ds| - 1]) * (10 * p) == (10 * Number(ds[..|ds| - 1])) * p;
  }

  /** The loop that drops trailing zeros. */
  method DropZeros(s: seq<Digit>) returns (ds: seq<Digit>)
    requires s != [] && s[0] != 0
    ensures Trimmed(ds, Number(s), |s|)
  {
    hide Number, Pow;
    ds := s;
    NoPlaces(s);
    while ds[|ds| - 1] == 0
      invariant 0 < |ds| <= |s| && ds[0] != 0
      invariant Number(ds) * Pow(10, |s| - |ds|) == Number(s)
      decreases |ds|
    {
      DropZero(ds, Number(s), |s|);
      ds := ds[..|ds| - 1];
    }
  }

  lemma NoPlaces(s: seq<Digit>)
    ensures Number(s) * Pow(10, 0) == Number(s)
  {
  }

  /** Adding one to a nine carries. */
  lemma CarryNine(ds: seq<Digit>, n: nat, size: nat)
    requires 0 < |ds| <= size && ds[|ds| - 1] == 9 && (Number(ds) + 1) * Pow(10, size - |ds|) == n
    ensures (Number(ds[..|ds| - 1]) + 1) * Pow(10, size - (|ds| - 1)) == n
  {
    var p, u := Pow(10, size - |ds|), Number(ds[..|ds| - 1]);
    assert Pow(10, size - (|ds| - 1)) == 10 * p;
    assert (u + 1) * (10 * p) == (10 * u + 9 + 1) * p;
  }

  /** `roundoff` */
  method RoundUp(s: seq<Digit>) returns (ds: seq<Digit>, up: bool)
    requires s != [] && s[0] != 0
    ensures Printed(ds, up, Number(s) + 1, |s|)
    ensures up <==> forall k :: 0 <= k < |s| ==> s[k] == 9
  {
    hide Number, Pow;
    var n := |s|;
    NoPlacesAfter(s);
    assert s[..n] == s;
    while true
      invariant 0 < n <= |s|
      invariant forall k :: n <= k < |s| ==> s[k] == 9
      invariant (Number(s[..n]) + 1) * Pow(10, |s| - n) == Number(s) + 1
      decreases n
    {
      n := n - 1;
      if s[n] != 9 { break; }
      CarryNine(s[..n + 1], Number(s) + 1, |s|);
      assert s[..n + 1][..n] == s[..n];
      if n == 0 {
        AllNines(s[..0], |s|);
        return [1], true;
      }
    }
    var d: Digit := s[n] + 1;
    ds, up := s[..n] + [d], false;
    NumberPush(s[..n], d);
    NumberPush(s[..n], s[n]);
    assert s[..n + 1] == s[..n] + [s[n]];
    assert Number(ds) == Number(s[..n + 1]) + 1;
    NotFull(ds, |s|);
  }

  lemma NoPlacesAfter(s: seq<Digit>)
    ensures (Number(s) + 1) * Pow(10, 0) == Number(s) + 1
  {
  }

  lemma AllNines(s: seq<Digit>, size: nat)
    requires s == []
    ensures (Number(s) + 1) * Pow(10, size) == Pow(10, size)
  {
  }

  lemma NotFull(ds: seq<Digit>, size: nat)
    requires |ds| <= size
    ensures Number(ds) * Pow(10, size - |ds|) < Pow(10, size)
  {
    hide Number, Pow;
    NumberBound(ds);
    PowAdd(10, |ds|, size - |ds|);
    Times(Number(ds) + 1, Pow(10, |ds|), Pow(10, size - |ds|));
    Distribute(Number(ds), 1, Pow(10, size - |ds|));
  }

  /** The divisor as `dshift` prepares it: the highest word has exactly four leading zero bits. */
  ghost predicate Divisor(t: Bigint)
    reads t, t.x
  {
    t.Valid() && t.wds > 0 && 0x800_0000 <= t.x[t.wds - 1] < 0x1000_0000
  }

  /** Less than ten times such a divisor has no more words than the divisor. */
  lemma FitsDivisor(b: seq<Word>, t: seq<Word>)
    requires Normal(b) && t != [] && t[|t| - 1] < 0x1000_0000 && Value(b) < 10 * Value(t)
    ensures |b| <= |t|
  {
    hide Value, Pow;
    var n := |t| - 1;
    ValuePrefix(t, n);
    ValueBound(t[..n]);
    assert t[..n + 1] == t;
    TenTimes(Value(t), Value(t[..n]), t[n], Pow(BASE, n));
    NextPow(n);
    if |b| > |t| {
      ValueLeast(b);
      PowMonotone(|t|, |b| - 1);
    }
  }

  lemma TenTimes(v: nat, low: nat, top: nat, p: nat)
    requires v == low + top * p && low < p && top < 0x1000_0000
    ensures 10 * v <= BASE * p
  {
    Distribute(top, 1, p);
    Times(top + 1, 0x1000_0000, p);
  }

  /** After `i` digits: they and the remainder make up the number. */
  lemma NextDigit(b0: nat, t: nat, ds: seq<Digit>, cur: nat, q: nat, rem: nat)
    requires b0 * Pow(10, |ds|) == Number(ds) * 10 * t + cur && cur == q * t + rem && rem < t && cur < 10 * t
    ensures 0 <= q < 10
    ensures b0 * Pow(10, |ds|) == Number(ds + [q]) * t + rem
    ensures b0 * Pow(10, |ds + [q]|) == Number(ds + [q]) * 10 * t + rem * 10
  {
    hide Number, Pow;
    if q >= 10 { Times(10, q, t); }
    NumberPush(ds, q);
    Distribute(10 * Number(ds), q, t);
    assert 10 * Number(ds) * t == Number(ds) * 10 * t;
    NextTen(|ds|);
    var p := Pow(10, |ds|);
    assert b0 * (10 * p) == 10 * (b0 * p);
    assert 10 * (Number(ds + [q]) * t + rem) == Number(ds + [q]) * 10 * t + rem * 10;
  }

  lemma NextTen(n: nat)
    ensures Pow(10, n + 1) == 10 * Pow(10, n)
  {
  }

  lemma QuotientIs(x: nat, t: nat, q: nat, r: nat)
    requires x == q * t + r && r < t
    ensures x / t == q && x % t == r
  {
    if x / t < q { Times(x / t + 1, q, t); Distribute(x / t, 1, t); }
    if x / t > q { Times(q + 1, x / t, t); Distribute(q, 1, t); }
  }

  /** A number of digits that comes out even needs no rounding. */
  lemma Exact(b0: nat, t: nat, ds: seq<Digit>, ilim: nat)
    requires t > 0 && 0 < |ds| <= ilim && b0 * Pow(10, |ds| - 1) == Number(ds) * t
    ensures RoundHalfEven(b0 * Pow(10, ilim - 1), t) == Number(ds) * Pow(10, ilim - |ds|)
  {
    hide Number, Pow;
    var p := Pow(10, ilim - |ds|);
    PowAdd(10, |ds| - 1, ilim - |ds|);
    assert b0 * (Pow(10, |ds| - 1) * p) == (b0 * Pow(10, |ds| - 1)) * p;
    assert (Number(ds) * t) * p == (Number(ds) * p) * t;
    QuotientIs(b0 * Pow(10, ilim - 1), t, Number(ds) * p, 0);
  }

  /** A remainder that is zero follows a digit that is not, as the number divided was not zero. */
  lemma LastDigit(cur: nat, q: nat, t: nat)
    requires cur == q * t && cur > 0
    ensures q != 0
  {
  }

  lemma FirstDigit(cur: nat, q: nat, t: nat, rem: nat)
    requires cur == q * t + rem && rem < t <= cur
    ensures q != 0
  {
  }

  lemma Parity(ds: seq<Digit>)
    requires ds != []
    ensures Number(ds) % 2 == ds[|ds| - 1] % 2
  {
  }

  /** One round of the loop: the next digit is taken off `b`. */
  method TakeDigit(b: Bigint, t: Bigint) returns (q: nat)
    requires b.Valid() && b != t && b.x != t.x && Divisor(t) && Normal(b.Words())
    requires 0 < b.Val() < 10 * t.Val()
    modifies b, b.x
    ensures b.Valid() && b.x == old(b.x) && Normal(b.Words())
    ensures old(b.Val()) == q * t.Val() + b.Val() && b.Val() < t.Val()
    ensures b.wds == 0 ==> b.x[0] == 0
  {
    hide Value, Pow;
    NoWords(b);
    FitsDivisor(b.Words(), t.Words());
    if b.wds == t.wds { FourZeroBits(b.x[b.wds - 1], t.x[t.wds - 1]); }
    q := Quorem(b, t);
  }

  /** `!b->x[0] && b->wds <= 1` */
  method IsZero(b: Bigint) returns (z: bool)
    requires b.Valid() && Normal(b.Words()) && (b.wds == 0 ==> b.x[0] == 0)
    ensures z <==> b.Val() == 0
  {
    z := b.x[0] == 0 && b.wds <= 1;
    if z {
      Zeros(b.Words());
    } else if b.wds > 1 {
      ValueLeast(b.Words());
    } else {
      assert b.Words() == [b.x[0]];
      ValueLeast(b.Words());
    }
  }

  /** The comparison of twice the remainder with the divisor that decides the rounding. */
  method RoundsUp(b: Bigint, t: Bigint, dig: nat) returns (up: bool)
    requires b.Valid() && Normal(b.Words()) && b.Val() > 0 && Divisor(t)
    ensures up <==> 2 * b.Val() > t.Val() || (2 * b.Val() == t.Val() && dig % 2 == 1)
  {
    hide Value;
    NoWords(b);
    if b.wds == 1 { assert b.Words() == [b.x[0]]; OneWord(b.x[0]); }
    var b2 := LShift(b, 1);
    PowOneIsTwo();
    var j := Cmp(b2, t);
    up := j > 0 || (j == 0 && dig % 2 == 1);
  }

  lemma OneWord(w: Word)
    ensures Value([w]) == w
  {
    ValuePush([], w);
  }

  lemma PowOneIsTwo()
    ensures Pow(2, 1) == 2
  {
    assert Pow(2, 0) == 1;
  }

  /** One round of the loop: the next digit, and whether nothing remains. `b0` is the number at the start. */
  method Round(c: Bigint, t: Bigint, s: seq<Digit>, ghost b0: nat) returns (s': seq<Digit>, z: bool)
    requires c.Valid() && c != t && c.x != t.x && Divisor(t) && Normal(c.Words())
    requires 0 < c.Val() < 10 * t.Val() && (s == [] ==> c.Val() >= t.Val()) && (s != [] ==> s[0] != 0)
    requires b0 * Pow(10, |s|) == Number(s) * 10 * t.Val() + c.Val()
    modifies c, c.x
    ensures c.Valid() && c.x == old(c.x) && Normal(c.Words())
    ensures |s'| == |s| + 1 && s'[0] != 0
    ensures b0 * Pow(10, |s'| - 1) == Number(s') * t.Val() + c.Val() && c.Val() < t.Val()
    ensures b0 * Pow(10, |s'|) == Number(s') * 10 * t.Val() + c.Val() * 10
    ensures (z <==> c.Val() == 0) && (z ==> s'[|s'| - 1] != 0)
  {
    hide Value, Pow, Number, Divisor;
    DivisorPositive(t);
    ghost var cur := c.Val();
    var q := TakeDigit(c, t);
    NextDigit(b0, t.Val(), s, cur, q, c.Val());
    if s == [] { FirstDigit(cur, q, t.Val(), c.Val()); }
    s' := s + [q];
    z := IsZero(c);
    if z { LastDigit(cur, q, t.Val()); }
  }

  /** The loop: `ilim` digits and a remainder `c`, or fewer if they come out even. */
  method Generate(b: Bigint, t: Bigint, ilim: nat) returns (s: seq<Digit>, even: bool, c: Bigint)
    requires b.Valid() && b != t && b.x != t.x && Divisor(t) && Normal(b.Words())
    requires t.Val() <= b.Val() < 10 * t.Val() && ilim > 0
    modifies b, b.x
    ensures 0 < |s| <= ilim && s[0] != 0 && t.Val() == old(t.Val()) > 0 && Divisor(t)
    ensures c.Valid() && Normal(c.Words()) && c.Val() < t.Val() && (even <==> c.Val() == 0)
    ensures old(b.Val()) * Pow(10, |s| - 1) == Number(s) * t.Val() + c.Val()
    ensures even ==> s[|s| - 1] != 0
    ensures !even ==> |s| == ilim
  {
    hide Value, Pow, Number, Divisor;
    DivisorPositive(t);
    ghost var b0, tv := b.Val(), t.Val();
    s, c := [], b;
    var i := 1;
    Start(b0, tv);
    while true
      invariant 0 < i <= ilim && |s| == i - 1 && (s != [] ==> s[0] != 0)
      invariant c.Valid() && c != t && c.x != t.x && Normal(c.Words()) && t.Val() == tv && Divisor(t)
      invariant c == b || fresh(c)
      invariant c.x == old(b.x) || fresh(c.x)
      invariant 0 < c.Val() < 10 * tv && (s == [] ==> c.Val() >= tv)
      invariant b0 * Pow(10, |s|) == Number(s) * 10 * tv + c.Val()
      decreases ilim - i
    {
      s, even := Round(c, t, s, b0);
      if even || i >= ilim { return; }
      NoWords(c);
      c := MultAdd(c, 10, 0);
      i := i + 1;
    }
  }

  /** The digits of `b / t` to `ilim` places, rounded half to even, without trailing zeros; `up` tells that
      the digits were all nines and overflowed, so that the decimal exponent has to be raised by one. */
  method Print(b: Bigint, t: Bigint, ilim: nat) returns (ds: seq<Digit>, up: bool)
    requires b.Valid() && b != t && b.x != t.x && Divisor(t) && Normal(b.Words())
    requires t.Val() <= b.Val() < 10 * t.Val() && ilim > 0
    modifies b, b.x
    ensures old(t.Val()) > 0
    ensures Printed(ds, up, RoundHalfEven(old(b.Val()) * Pow(10, ilim - 1), old(t.Val())), ilim)
  {
    hide Value, Pow, Number, Printed, RoundHalfEven, Divisor, Trimmed;
    ghost var b0 := b.Val();
    var s, even, c := Generate(b, t, ilim);
    DivisorPositive(t);
    ghost var tv := t.Val();
    if even {
      Exact(b0, tv, s, ilim);
      NotFull(s, ilim);
      PrintedExact(s, ilim);
      return s, false;
    }
    Parity(s);
    QuotientIs(b0 * Pow(10, ilim - 1), tv, Number(s), c.Val());
    Rounding(b0 * Pow(10, ilim - 1), tv, Number(s), c.Val());
    var r := RoundsUp(c, t, s[|s| - 1]);
    if r {
      ds, up := RoundUp(s);
    } else {
      ds := DropZeros(s);
      up := false;
      PrintedDropped(ds, s);
    }
  }

  lemma DivisorPositive(t: Bigint)
    requires Divisor(t)
    ensures t.Val() > 0 && t.Valid() && t.wds > 0
  {
    ValueLeast(t.Words());
  }

  lemma Start(b0: nat, t: nat)
    ensures b0 * Pow(10, 0) == Number([]) * 10 * t + b0
  {
  }

  lemma Rounding(num: nat, den: nat, q: nat, r: nat)
    requires den > 0 && num / den == q && num % den == r
    ensures RoundHalfEven(num, den) == if 2 * r > den || (2 * r == den && q % 2 == 1) then q + 1 else q
  {
  }

  lemma PrintedExact(s: seq<Digit>, ilim: nat)
    requires 0 < |s| <= ilim && s[0] != 0 && s[|s| - 1] != 0
    requires Number(s) * Pow(10, ilim - |s|) < Pow(10, ilim)
    ensures Printed(s, false, Number(s) * Pow(10, ilim - |s|), ilim)
  {
  }

  lemma PrintedDropped(ds: seq<Digit>, s: seq<Digit>)
    requires Trimmed(ds, Number(s), |s|)
    ensures Printed(ds, false, Number(s), |s|)
  {
    NumberBound(s);
  }
}
