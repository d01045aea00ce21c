/** What several components share: options, bytes, powers, numbers in bytes, and the order of strings. */
module Common {

  datatype Option<+T> = None | Some(value: T)

  type Byte = x: int | 0 <= x < 256

  // ----- powers -----

  function Pow(b: nat, n: nat): (r: nat)
    ensures b > 0 ==> r > 0
  {
    if n == 0 then 1 else
      var p := Pow(b, n - 1);
      assert b > 0 ==> b * p > 0;
      b * p
  }

  lemma PowStep(b: nat, n: nat)
    ensures n > 0 ==> Pow(b, n) == b * Pow(b, n - 1)
    ensures n == 0 ==> Pow(b, n) == 1
  {
  }

  lemma {:induction false} PowAdd(b: nat, m: nat, n: nat)
    ensures Pow(b, m + n) == Pow(b, m) * Pow(b, n)
  {
    PowStep(b, m);
    PowStep(b, m + n);
    hide Pow;
    if m > 0 {
      PowAdd(b, m - 1, n);
      assert m + n - 1 == m - 1 + n;
      Regroup(b, Pow(b, m - 1), Pow(b, n));
    }
  }

  lemma Regroup(a: nat, b: nat, c: nat)
    ensures a * (b * c) == (a * b) * c
  {
  }

  lemma PowTwice(b: nat, m: nat)
    ensures Pow(b, 2 * m) == Pow(b, m) * Pow(b, m)
  {
    PowAdd(b, m, m);
  }

  lemma {:induction false} PowPow(b: nat, m: nat, n: nat)
    ensures Pow(Pow(b, m), n) == Pow(b, m * n)
  {
    if n > 0 {
      PowPow(b, m, n - 1);
      assert m * n == m + m * (n - 1);
      PowAdd(b, m, m * (n - 1));
    } else {
      assert m * n == 0;
    }
  }

  // ----- sequences -----

  lemma Joined<T>(a: seq<T>, b: seq<T>, c: seq<T>)
    ensures a + b + c == a + (b + c)
  {
  }

  // ----- quotients -----

  lemma DivFloor(x: nat, a: nat)
    requires a > 0
    ensures a * (x / a) <= x < a * (x / a) + a
  {
    assert x == a * (x / a) + x % a;
  }

  lemma MulMono(a: nat, x: int, y: int)
    ensures x <= y ==> a * x <= a * y
  {
    if x <= y { assert a * y == a * x + a * (y - x) && a * (y - x) >= 0; }
  }

  lemma DivIs(x: nat, m: nat, q: nat)
    requires m > 0 && m * q <= x < m * q + m
    ensures x / m == q
  {
    var p := x / m;
    DivFloor(x, m);
    if p < q { MulMono(m, p + 1, q); } else if p > q { MulMono(m, q + 1, p); }
  }

  lemma Spread(a: nat, x: nat, y: nat)
    ensures a * (x + y) == a * x + a * y
  {
  }

  lemma DivTwice(x: nat, a: nat, b: nat)
    requires a > 0 && b > 0
    ensures a * b > 0 && x / a / b == x / (a * b)
  {
    var q := x / a / b;
    DivFloor(x, a);
    DivFloor(x / a, b);
    MulMono(a, b * q, x / a);
    MulMono(a, x / a + 1, b * q + b);
    Regroup(a, b, q);
    Spread(a, b * q, b);
    Spread(a, x / a, 1);
    DivIs(x, a * b, q);
  }

  // ----- numbers in bytes, the lowest first -----

  function ToBytes(x: nat, n: nat): (s: seq<Byte>)
    ensures |s| == n
  {
    if n == 0 then [] else [x % 256] + ToBytes(x / 256, n - 1)
  }

  function FromBytes(s: seq<Byte>): (r: nat)
    ensures r < Pow(256, |s|)
  {
    if s == [] then 0
    else
      var rest := FromBytes(s[1..]);
      assert s[0] + 256 * rest < 256 * (rest + 1) <= 256 * Pow(256, |s| - 1);
      s[0] + 256 * rest
  }

  lemma {:induction false} BytesBack(x: nat, n: nat)
    requires x < Pow(256, n)
    ensures FromBytes(ToBytes(x, n)) == x
  {
    if n > 0 {
      BytesBack(x / 256, n - 1);
      assert ToBytes(x, n)[1..] == ToBytes(x / 256, n - 1);
    }
  }

  lemma ByteWidths()
    ensures Pow(256, 1) == 256 && Pow(256, 2) == 0x1_0000 && Pow(256, 4) == 0x1_0000_0000
    ensures Pow(256, 8) == 0x1_0000_0000_0000_0000
  {
    assert Pow(256, 1) == 256 * Pow(256, 0);
    assert Pow(256, 2) == 256 * Pow(256, 1);
    hide Pow;
    PowTwice(256, 2);
    PowTwice(256, 4);
  }

  // ----- the order of strings -----

  /** The sign of `memcmp` on the common length, and then of the lengths. */
  function Compare(a: seq<Byte>, b: seq<Byte>): int {
    if a == [] then (if b == [] then 0 else -1)
    else if b == [] then 1
    else if a[0] != b[0] then a[0] - b[0]
    else Compare(a[1..], b[1..])
  }

  /** The strings are the same up to place `k`, where `a` has the smaller byte. */
  predicate Differ(a: seq<Byte>, b: seq<Byte>, k: nat) {
    k < |a| && k < |b| && a[..k] == b[..k] && a[k] < b[k]
  }

  lemma DifferLater(a: seq<Byte>, b: seq<Byte>, k: nat)
    requires a != [] && b != [] && a[0] == b[0]
    ensures Differ(a[1..], b[1..], k) <==> Differ(a, b, k + 1)
    ensures !Differ(a, b, 0)
  {
    if k + 1 <= |a| && k + 1 <= |b| {
      assert a[..k + 1] == [a[0]] + a[1..][..k] && b[..k + 1] == [b[0]] + b[1..][..k];
      assert a[..k + 1][1..] == a[1..][..k] && b[..k + 1][1..] == b[1..][..k];
    }
  }

  lemma DifferFirst(a: seq<Byte>, b: seq<Byte>, k: nat)
    requires a != [] && b != [] && a[0] != b[0]
    ensures Differ(a, b, k) <==> k == 0 && a[0] < b[0]
  {
    if k > 0 && k < |a| && k < |b| { assert a[..k][0] != b[..k][0]; }
  }

  /** The order of `Compare` is that of `memcmp`: `b` goes on where `a` ends, or the first byte in which they differ is
      smaller in `a`. */
  lemma {:induction false} CompareIsOrder(a: seq<Byte>, b: seq<Byte>)
    ensures Compare(a, b) < 0 <==>
      a < b || exists k: nat :: k < |a| && k < |b| && a[..k] == b[..k] && a[k] < b[k]
  {
    CompareIsDiffer(a, b);
    assert forall k: nat :: Differ(a, b, k) <==> k < |a| && k < |b| && a[..k] == b[..k] && a[k] < b[k];
  }

  lemma {:induction false} CompareIsDiffer(a: seq<Byte>, b: seq<Byte>)
    ensures Compare(a, b) < 0 <==> a < b || exists k: nat :: Differ(a, b, k)
  {
    if a == [] || b == [] {
      assert a < b <==> a == [] && b != [];
    } else if a[0] != b[0] {
      forall k: nat ensures Differ(a, b, k) <==> k == 0 && a[0] < b[0] { DifferFirst(a, b, k); }
      assert !(a < b);
      assert Differ(a, b, 0) <==> a[0] < b[0];
    } else {
      CompareIsDiffer(a[1..], b[1..]);
      forall k: nat ensures Differ(a[1..], b[1..], k) <==> Differ(a, b, k + 1) { DifferLater(a, b, k); }
      DifferLater(a, b, 0);
      assert a == [a[0]] + a[1..] && b == [b[0]] + b[1..];
      assert a < b <==> a[1..] < b[1..];
      hide Differ;
      if j: nat :| Differ(a, b, j) { assert j > 0 && Differ(a[1..], b[1..], j - 1); }
    }
  }

  lemma {:induction false} CompareEqual(a: seq<Byte>, b: seq<Byte>)
    ensures Compare(a, b) == 0 <==> a == b
  {
    if a != [] && b != [] && a[0] == b[0] {
      CompareEqual(a[1..], b[1..]);
      assert a == [a[0]] + a[1..] && b == [b[0]] + b[1..];
    }
  }

  lemma {:induction false} CompareFlips(a: seq<Byte>, b: seq<Byte>)
    ensures Compare(a, b) < 0 <==> Compare(b, a) > 0
  {
    if a != [] && b != [] && a[0] == b[0] { CompareFlips(a[1..], b[1..]); }
  }

  lemma {:induction false} CompareChains(a: seq<Byte>, b: seq<Byte>, c: seq<Byte>)
    requires Compare(a, b) <= 0 && Compare(b, c) <= 0
    ensures Compare(a, c) <= 0 && (Compare(a, b) < 0 || Compare(b, c) < 0 ==> Compare(a, c) < 0)
  {
    if a != [] && b != [] && c != [] && a[0] == b[0] == c[0] { CompareChains(a[1..], b[1..], c[1..]); }
  }

  // ----- the smaller and the larger of two numbers -----

  function Min(a: int, b: int): int { if a < b then a else b }

  function Max(a: int, b: int): int { if a < b then b else a }
}
