/** Products, shifts and powers of five on the big integers of dtoa.c. */
module BignumPower {
  import opened Common
  import opened Bignum

  // ----- mult -----

  /** One word of the inner loop of `mult`. */
  lemma MultStep(v: nat, c0: nat, ya: nat, carry: nat, w: nat, a: nat, y: nat, z: nat, x: nat, next: nat, p: nat,
                 pj: nat, pi: nat)
    requires v + carry * p == c0 + y * ya * pj && p == pi * pj
    requires z == a * y + w + carry && z == x + next * BASE
    ensures (v + x * p) + next * (BASE * p) == (c0 + w * p) + y * (ya + a * pi) * pj
  {
    assert next * (BASE * p) == (next * BASE) * p;
    Distribute(x, next * BASE, p);
    Distribute(a * y + w, carry, p);
    Distribute(a * y, w, p);
    assert y * (ya + a * pi) * pj == y * ya * pj + a * y * p by {
      Distribute(ya, a * pi, y);
      assert (ya + a * pi) * y == y * (ya + a * pi);
      Distribute(ya * y, a * pi * y, pj);
      assert ya * y * pj == y * ya * pj;
      assert a * pi * y * pj == a * y * p;
    }
  }

  lemma MultFits(a: nat, y: nat, w: nat, carry: nat)
    requires a < BASE && y < BASE && w < BASE && carry < BASE
    ensures (a * y + w + carry) / BASE < BASE
  {
    Times(a, BASE - 1, y);
    Times(y, BASE - 1, BASE - 1);
    Quotient(a * y + w + carry, BASE);
  }

  /** One round of the inner loop of `mult`. */
  method ProductWord(a: Word, y: Word, w: Word, carry: nat) returns (x: Word, next: nat)
    requires carry < BASE
    ensures next < BASE && a * y + w + carry == x + next * BASE
  {
    var z := a * y + w + carry;
    MultFits(a, y, w, carry);
    x := z % BASE;
    next := z / BASE;
  }

  /** The inner loop of `mult`: `y` times `a` is added to `c` from word `j` on. */
  method AddProduct(c: array<Word>, j: nat, a: array<Word>, n: nat, y: Word) returns (carry: nat)
    requires n <= a.Length && j + n <= c.Length && a != c
    modifies c
    ensures carry < BASE
    ensures Value(c[..j + n]) + carry * Pow(BASE, j + n) == old(Value(c[..j + n])) + y * Value(a[..n]) * Pow(BASE, j)
    ensures forall k :: j + n <= k < c.Length ==> c[k] == old(c[k])
  {
    hide Value, Pow;
    ghost var was := c[..];
    var i := 0;
    carry := 0;
    NoValue(a[..0], y, Pow(BASE, j), Pow(BASE, j + 0));
    while i < n
      invariant 0 <= i <= n && carry < BASE
      invariant forall k :: j + i <= k < c.Length ==> c[k] == was[k]
      invariant Value(c[..j + i]) + carry * Pow(BASE, j + i) ==
        Value(was[..j + i]) + y * Value(a[..i]) * Pow(BASE, j)
    {
      var x, next := ProductWord(a[i], y, c[j + i], carry);
      PowAdd(BASE, i, j);
      MultStep(Value(c[..j + i]), Value(was[..j + i]), Value(a[..i]), carry, c[j + i], a[i], y,
               a[i] * y + c[j + i] + carry, x, next, Pow(BASE, j + i), Pow(BASE, j), Pow(BASE, i));
      SetPrefix(c[..], j + i, x);
      ValuePrefix(was, j + i);
      ValuePrefix(a[..], i);
      NextPow(j + i);
      assert c[..][..j + i] == c[..j + i] && a[..][..i] == a[..i] && a[..][..i + 1] == a[..i + 1];
      c[j + i] := x;
      carry := next;
      assert c[..][..j + i + 1] == c[..j + i + 1];
      i := i + 1;
    }
    assert was[..j + n] == old(c[..j + n]);
  }

  lemma NoValue(s: seq<Word>, y: nat, p: nat, p': nat)
    requires s == []
    ensures y * Value(s) * p == 0 && 0 * p' == 0
  {
  }

  /** One round of the outer loop of `mult`. */
  method AddRow(c: array<Word>, j: nat, a: array<Word>, n: nat, y: Word)
    requires n <= a.Length && j + n < c.Length && a != c && c[j + n] == 0
    modifies c
    ensures Value(c[..j + n + 1]) == old(Value(c[..j + n])) + y * Value(a[..n]) * Pow(BASE, j)
    ensures forall k :: j + n < k < c.Length ==> c[k] == old(c[k])
  {
    hide Value, Pow;
    if y != 0 {
      var carry := AddProduct(c, j, a, n, y);
      SetPrefix(c[..], j + n, carry);
      assert c[..][..j + n] == c[..j + n];
      c[j + n] := carry;
      assert c[..][..j + n + 1] == c[..j + n + 1];
    } else {
      ValuePrefix(c[..], j + n);
      assert c[..][..j + n] == c[..j + n] && c[..][..j + n + 1] == c[..j + n + 1];
      NoProduct(Value(a[..n]), Pow(BASE, j), Pow(BASE, j + n));
    }
  }

  lemma Zeros(s: seq<Word>)
    requires forall k :: 0 <= k < |s| ==> s[k] == 0
    ensures Value(s) == 0
  {
    ValueZeros(s, 0);
  }

  lemma MoreProduct(a: nat, b: nat, y: nat, p: nat)
    ensures a * b + y * a * p == a * (b + y * p)
  {
    Distribute(b, y * p, a);
    assert y * p * a == y * a * p;
  }

  /** `mult` */
  method Mult(a0: Bigint, b0: Bigint) returns (c: Bigint)
    requires a0.Valid() && b0.Valid() && (a0.wds > 0 || b0.wds > 0)
    ensures fresh(c) && fresh(c.x) && c.Valid()
    ensures c.Val() == a0.Val() * b0.Val()
    ensures c.wds <= a0.wds + b0.wds && (c.wds > 0 ==> c.x[c.wds - 1] != 0)
  {
    hide Value, Pow;
    var a, b := a0, b0;
    if a.wds < b.wds { a, b := b, a; }
    var wc := a.wds + b.wds;
    c := new Bigint(wc);
    var j := 0;
    Zeros(c.x[..a.wds]);
    NoValue(b.x[..0], a.Val(), 1, 1);
    while j < b.wds
      invariant 0 <= j <= b.wds && fresh(c) && fresh(c.x) && c.Valid() && c.x.Length == wc
      invariant Value(c.x[..j + a.wds]) == a.Val() * Value(b.x[..j])
      invariant forall k :: j + a.wds <= k < wc ==> c.x[k] == 0
    {
      MoreProduct(a.Val(), Value(b.x[..j]), b.x[j], Pow(BASE, j));
      ValuePrefix(b.x[..], j);
      assert b.x[..][..j] == b.x[..j] && b.x[..][..j + 1] == b.x[..j + 1];
      AddRow(c.x, j, a.x, a.wds, b.x[j]);
      j := j + 1;
      assert c.x[..j + a.wds] == c.x[..j - 1 + a.wds + 1];
    }
    assert c.x[..wc] == c.x[..j + a.wds] && b.x[..j] == b.Words();
    Trim(c, wc);
    Commutes(a0.Val(), b0.Val());
  }

  lemma Commutes(x: nat, y: nat)
    ensures x * y == y * x
  {
  }

  /** The last loop of `mult`. */
  method Trim(c: Bigint, n: nat)
    requires c.Valid() && n <= c.x.Length
    modifies c`wds
    ensures c.Valid() && c.wds <= n && c.Val() == old(Value(c.x[..n]))
    ensures c.wds > 0 ==> c.x[c.wds - 1] != 0
  {
    hide Value;
    var wc := n;
    while wc > 0 && c.x[wc - 1] == 0
      invariant 0 <= wc <= n && Value(c.x[..wc]) == old(Value(c.x[..n]))
    {
      ValueZeros(c.x[..wc], wc - 1);
      assert c.x[..wc][..wc - 1] == c.x[..wc - 1];
      wc := wc - 1;
    }
    c.wds := wc;
  }

  lemma NoProduct(a: nat, p: nat, p': nat)
    ensures 0 * a * p == 0 && 0 * p' == 0
  {
  }

  // ----- pow5mult -----

  /** The cached list behind `p5s`: node `i` is five to the power of four times two to the `i`. */
  class Fives {
    var nodes: seq<Bigint>

    ghost predicate Valid()
      reads this, nodes, set k | 0 <= k < |nodes| :: nodes[k].x
    {
      forall k :: 0 <= k < |nodes| ==> Node(nodes[k], k)
    }

    /** `b` is none of the nodes, so that writing to it leaves them alone. */
    ghost predicate Apart(b: Bigint)
      reads this, nodes, b
    {
      b !in nodes && forall k :: 0 <= k < |nodes| ==> nodes[k].x != b.x
    }

    constructor ()
      ensures Valid() && nodes == []
    {
      nodes := [];
    }
  }

  ghost predicate Node(b: Bigint, k: nat)
    reads b, b.x
  {
    b.Valid() && b.wds > 0 && Normal(b.Words()) && b.Val() == Pow(5, 4 * Pow(2, k))
  }

  lemma NoWords(b: Bigint)
    requires b.Valid()
    ensures b.wds == 0 ==> b.Val() == 0
  {
  }

  /** `i2b` for 625, the first node. */
  method First() returns (b: Bigint)
    ensures fresh(b) && fresh(b.x) && Node(b, 0)
  {
    b := new Bigint(2);
    b.x[0] := 625;
    b.wds := 1;
    assert b.Words() == [625];
    ValuePush([], 625);
    assert Pow(5, 4) == 5 * Pow(5, 3) == 25 * Pow(5, 2) == 125 * Pow(5, 1);
  }

  lemma NextNode(v: nat, k: nat)
    requires v == Pow(5, 4 * Pow(2, k))
    ensures v * v == Pow(5, 4 * Pow(2, k + 1))
  {
    PowTwice(5, 4 * Pow(2, k));
    assert 2 * (4 * Pow(2, k)) == 4 * Pow(2, k + 1);
  }

  lemma OddPower(v: nat, k: nat)
    requires k % 2 == 1
    ensures Pow(v, k) == v * Pow(v, k - 1)
  {
  }

  /** What remains to be multiplied when the lowest bit of `k` is done. */
  lemma NextBit(r: nat, v: nat, k: nat)
    ensures k % 2 == 1 ==> r * Pow(v, k) == (r * v) * Pow(v * v, k / 2)
    ensures k % 2 == 0 ==> r * Pow(v, k) == r * Pow(v * v, k / 2)
  {
    hide Pow;
    Squares(v, k / 2);
    if k % 2 == 1 {
      OddPower(v, k);
      assert k - 1 == 2 * (k / 2);
      Regroup(r, v, Pow(v, k - 1));
    } else {
      assert k == 2 * (k / 2);
    }
  }

  lemma {:induction false} Squares(v: nat, h: nat)
    ensures Pow(v, 2 * h) == Pow(v * v, h)
  {
    if h > 0 {
      Squares(v, h - 1);
      assert Pow(v, 2 * h) == v * Pow(v, 2 * h - 1) == v * (v * Pow(v, 2 * (h - 1)));
    }
  }

  /** The two lowest bits of the exponent, and the others. */
  lemma SplitPower(v: nat, k: nat)
    ensures v * Pow(5, k % 4) * Pow(625, k / 4) == v * Pow(5, k)
  {
    PowAdd(5, k % 4, 4 * (k / 4));
    PowPow(5, 4, k / 4);
    assert Pow(5, 4) == 5 * Pow(5, 3) == 25 * Pow(5, 2) == 125 * Pow(5, 1) == 625;
    assert v * Pow(5, k % 4) * Pow(625, k / 4) == v * (Pow(5, k % 4) * Pow(625, k / 4));
  }

  lemma SmallFives()
    ensures Pow(5, 0) == 1 && Pow(5, 1) == 5 && Pow(5, 2) == 25 && Pow(5, 3) == 125
  {
    assert Pow(5, 1) == 5 * Pow(5, 0);
    assert Pow(5, 2) == 5 * Pow(5, 1);
    assert Pow(5, 3) == 5 * Pow(5, 2);
  }

  lemma Positive(x: nat, y: nat)
    requires x > 0 && y > 0
    ensures x * y > 0
  {
  }

  /** `pow5mult`: `b` times five to the `k`. The nodes are made when they are needed first. */
  method Pow5Mult(b: Bigint, k: nat, fives: Fives) returns (r: Bigint)
    requires b.Valid() && Normal(b.Words()) && (b.wds > 0 || k % 4 == 0)
    requires fives.Valid() && fives.Apart(b)
    modifies b, b.x, fives
    ensures r.Valid() && Normal(r.Words()) && r.Val() == old(b.Val()) * Pow(5, k)
    ensures fives.Valid() && old(fives.nodes) <= fives.nodes
    ensures r == b || fresh(r)
  {
    hide Value, Pow;
    r := b;
    SmallFives();
    SplitPower(b.Val(), k);
    ghost var v := b.Val();
    var i, m := k % 4, k / 4;
    ghost var v1 := v * Pow(5, k % 4);
    if i != 0 { r := MultAdd(b, if i == 1 then 5 else if i == 2 then 25 else 125, 0); }
    NoPower(v1);
    if m == 0 { return; }
    r := MultFives(r, m, fives);
  }

  lemma NoPower(v: nat)
    ensures v * Pow(625, 0) == v
  {
  }

  /** Makes the first node when it is needed for the first time. */
  method Begin(fives: Fives)
    requires fives.Valid()
    modifies fives
    ensures fives.Valid() && old(fives.nodes) <= fives.nodes && fives.nodes != []
  {
    if fives.nodes == [] {
      var n := First();
      fives.nodes := [n];
    }
  }

  /** Makes the node behind `j` as its square when it is needed for the first time. */
  method Follow(fives: Fives, j: nat)
    requires fives.Valid() && j < |fives.nodes|
    modifies fives
    ensures fives.Valid() && old(fives.nodes) <= fives.nodes && j + 1 < |fives.nodes|
  {
    hide Value, Pow;
    if j + 1 == |fives.nodes| {
      var p5 := fives.nodes[j];
      assert Node(p5, j);
      NodePositive(p5, j);
      var n := Mult(p5, p5);
      NextNode(p5.Val(), j);
      NoWords(n);
      Positive(p5.Val(), p5.Val());
      fives.nodes := fives.nodes + [n];
    }
  }

  /** One bit of the exponent. */
  method MultBit(b: Bigint, p5: Bigint, m: nat) returns (r: Bigint)
    requires b.Valid() && Normal(b.Words()) && p5.Valid() && p5.wds > 0
    ensures r.Valid() && Normal(r.Words()) && (r == b || fresh(r))
    ensures b.Val() * Pow(p5.Val(), m) == r.Val() * Pow(p5.Val() * p5.Val(), m / 2)
  {
    hide Value, Pow;
    NextBit(b.Val(), p5.Val(), m);
    r := b;
    if m % 2 == 1 { r := Mult(b, p5); }
  }

  /** The loop of `pow5mult` over the bits of the exponent. */
  method MultFives(b: Bigint, k: nat, fives: Fives) returns (r: Bigint)
    requires b.Valid() && Normal(b.Words()) && k > 0
    requires fives.Valid()
    modifies fives
    ensures r.Valid() && Normal(r.Words()) && r.Val() == old(b.Val()) * Pow(625, k)
    ensures fives.Valid() && old(fives.nodes) <= fives.nodes
    ensures r == b || fresh(r)
  {
    hide Value, Pow, Normal;
    r := b;
    var m := k;
    FirstNode();
    Begin(fives);
    var j := 0;
    assert Node(fives.nodes[0], 0);
    while true
      invariant 0 <= j < |fives.nodes| && m > 0
      invariant fives.Valid() && old(fives.nodes) <= fives.nodes
      invariant r.Valid() && Normal(r.Words()) && (r == b || fresh(r))
      invariant r.Val() * Pow(Pow(5, 4 * Pow(2, j)), m) == old(b.Val()) * Pow(625, k)
      decreases m
    {
      var p5 := fives.nodes[j];
      assert Node(p5, j);
      r := MultBit(r, p5, m);
      m := m / 2;
      if m == 0 { break; }
      NextNode(p5.Val(), j);
      Follow(fives, j);
      j := j + 1;
    }
    PowerZero(r.Val());
  }

  lemma PowerZero(x: nat)
    ensures forall v: nat :: x * Pow(v, 0) == x
  {
  }

  lemma FirstNode()
    ensures Pow(5, 4 * Pow(2, 0)) == 625
  {
    SmallFives();
    assert Pow(5, 4) == 5 * Pow(5, 3);
  }

  lemma NodePositive(b: Bigint, k: nat)
    requires Node(b, k)
    ensures b.Val() > 0
  {
  }
}
