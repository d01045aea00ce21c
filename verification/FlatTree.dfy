/** Pattern trees as lptree.c stores them, in one array in prefix order, and the passes that
    rewrite them in place. */
module FlatTree {
  import opened Common
  import opened Peg
  import opened Analysis
  import opened Builders

  datatype Tag = GChar | GSet | GAny | GTrue | GFalse | GRep | GSeq | GChoice | GNot | GAnd | GBehind

  /** One element of the array. `u` is the character, the length to go back, or the distance to
      the second child. `SetBytes` is the first of the four elements that hold a set, and
      carries it whole; `SetRest` is each of the others. */
  datatype Node = Node(tag: Tag, u: int) | SetBytes(cs: Charset) | SetRest

  type Nodes = seq<Node>

  function Flat(t: Tree): (r: Nodes)
    ensures |r| >= 1 && r[0].Node?
  {
    match t
    case TChar(c) => [Node(GChar, c)]
    case TSet(cs) => [Node(GSet, 0), SetBytes(cs), SetRest, SetRest, SetRest]
    case TAny => [Node(GAny, 0)]
    case TTrue => [Node(GTrue, 0)]
    case TFalse => [Node(GFalse, 0)]
    case TRep(p) => [Node(GRep, 0)] + Flat(p)
    case TNot(p) => [Node(GNot, 0)] + Flat(p)
    case TAnd(p) => [Node(GAnd, 0)] + Flat(p)
    case TBehind(p, n) => [Node(GBehind, n)] + Flat(p)
    case TSeq(p1, p2) => Pair(GSeq, Flat(p1), Flat(p2))
    case TChoice(p1, p2) => Pair(GChoice, Flat(p1), Flat(p2))
  }

  /** A node with two children. */
  function Pair(g: Tag, f1: Nodes, f2: Nodes): (r: Nodes)
    ensures |r| == 1 + |f1| + |f2|
  {
    [Node(g, 1 + |f1|)] + f1 + f2
  }

  predicate Associative(g: Tag) { g == GSeq || g == GChoice }

  function Bin(g: Tag, p1: Tree, p2: Tree): Tree
    requires Associative(g)
  {
    if g == GSeq then TSeq(p1, p2) else TChoice(p1, p2)
  }

  function TagOf(t: Tree): Tag { Flat(t)[0].tag }

  lemma TagIsKind(g: Tag, t: Tree)
    requires Associative(g)
    ensures TagOf(t) == g <==> (if g == GSeq then t.TSeq? else t.TChoice?)
    ensures TagOf(t) == g ==> t == Bin(g, t.p1, t.p2)
  {
  }

  lemma FlatBin(g: Tag, p1: Tree, p2: Tree)
    requires Associative(g)
    ensures Flat(Bin(g, p1, p2)) == Pair(g, Flat(p1), Flat(p2))
  {
  }

  /** Op(Op(a, b), c) becomes Op(a, Op(b, c)) until the first child is no such node. */
  function Rotate(g: Tag, p1: Tree, p2: Tree): Tree
    requires Associative(g)
    decreases p1
  {
    if g == GSeq && p1.TSeq? then Rotate(g, p1.p1, TSeq(p1.p2, p2))
    else if g == GChoice && p1.TChoice? then Rotate(g, p1.p1, TChoice(p1.p2, p2))
    else Bin(g, p1, p2)
  }

  // ----- what rotation keeps -----

  /** Alike for the analyses, and of one size. */
  predicate Alike(a: Tree, b: Tree) {
    && Nullable(a) == Nullable(b)
    && FixedLen(a) == FixedLen(b)
    && (WellFormed(a) ==> WellFormed(b))
    && |Flat(a)| == |Flat(b)|
  }

  ghost predicate Equivalent(a: Tree, b: Tree) {
    Same(a, b) && Alike(a, b)
  }

  lemma SeqAssociates(a: Tree, b: Tree, c: Tree)
    ensures Equivalent(TSeq(TSeq(a, b), c), TSeq(a, TSeq(b, c)))
  {
    var l, r := TSeq(TSeq(a, b), c), TSeq(a, TSeq(b, c));
    forall s: Subject, i: nat | i <= |s| ensures Match(l, s, i) == Match(r, s, i) {
      var ra := Match(a, s, i);
      if ra.Some? { assert Match(TSeq(a, b), s, i) == Match(b, s, ra.value); }
      else { assert Match(TSeq(a, b), s, i) == None; }
    }
    AnalysesAssociate(GSeq, a, b, c);
    FlatRotates(GSeq, a, b, c);
  }

  lemma ChoiceAssociates(a: Tree, b: Tree, c: Tree)
    ensures Equivalent(TChoice(TChoice(a, b), c), TChoice(a, TChoice(b, c)))
  {
    var l, r := TChoice(TChoice(a, b), c), TChoice(a, TChoice(b, c));
    forall s: Subject, i: nat | i <= |s| ensures Match(l, s, i) == Match(r, s, i) {
      assert Match(TChoice(a, b), s, i) == if Match(a, s, i).Some? then Match(a, s, i) else Match(b, s, i);
    }
    AnalysesAssociate(GChoice, a, b, c);
    FlatRotates(GChoice, a, b, c);
  }

  function PairLen(g: Tag, n1: int, n2: int): int {
    if g == GSeq then (if n1 < 0 || n2 < 0 then -1 else n1 + n2)
    else if n1 != n2 || n1 < 0 then -1 else n1
  }

  /** The analyses and the size of a node with two children, from those of its children. */
  lemma PairAnalyses(g: Tag, p: Tree, q: Tree)
    requires Associative(g)
    ensures Nullable(Bin(g, p, q)) == if g == GSeq then Nullable(p) && Nullable(q) else Nullable(p) || Nullable(q)
    ensures FixedLen(Bin(g, p, q)) == PairLen(g, FixedLen(p), FixedLen(q))
    ensures WellFormed(Bin(g, p, q)) <==> WellFormed(p) && WellFormed(q)
    ensures |Flat(Bin(g, p, q))| == 1 + |Flat(p)| + |Flat(q)|
  {
  }

  lemma AnalysesAssociate(g: Tag, a: Tree, b: Tree, c: Tree)
    requires Associative(g)
    ensures var l, r := Bin(g, Bin(g, a, b), c), Bin(g, a, Bin(g, b, c));
      Nullable(l) == Nullable(r) && FixedLen(l) == FixedLen(r) && (WellFormed(l) ==> WellFormed(r))
  {
    hide WellFormed, FixedLen, CheckAux, Flat;
    PairAnalyses(g, a, b);
    PairAnalyses(g, b, c);
    PairAnalyses(g, Bin(g, a, b), c);
    PairAnalyses(g, a, Bin(g, b, c));
  }

  /** Both forms take the same room. */
  lemma FlatRotates(g: Tag, a: Tree, b: Tree, c: Tree)
    requires Associative(g)
    ensures |Flat(Bin(g, Bin(g, a, b), c))| == |Flat(Bin(g, a, Bin(g, b, c)))| == 2 + |Flat(a)| + |Flat(b)| + |Flat(c)|
  {
    FlatBin(g, a, b);
    FlatBin(g, b, c);
    FlatBin(g, Bin(g, a, b), c);
    FlatBin(g, a, Bin(g, b, c));
  }

  lemma {:induction false} RotateKeeps(g: Tag, p1: Tree, p2: Tree)
    requires Associative(g)
    ensures Equivalent(Bin(g, p1, p2), Rotate(g, p1, p2))
    ensures TagOf(Rotate(g, p1, p2)) == g
    ensures var r := Rotate(g, p1, p2); r == Bin(g, r.p1, r.p2) && TagOf(r.p1) != g
    decreases p1
  {
    hide WellFormed, Match, FixedLen, CheckAux;
    if g == GSeq && p1.TSeq? {
      SeqAssociates(p1.p1, p1.p2, p2);
      RotateKeeps(g, p1.p1, TSeq(p1.p2, p2));
    } else if g == GChoice && p1.TChoice? {
      ChoiceAssociates(p1.p1, p1.p2, p2);
      RotateKeeps(g, p1.p1, TChoice(p1.p2, p2));
    } else {
      TagIsKind(g, p1);
    }
  }

  /** What `finalfix` makes of a tree: every sequence and choice leans to the right. */
  function Fixed(t: Tree): Tree
    decreases |Flat(t)|
  {
    match t
    case TRep(p) => TRep(Fixed(p))
    case TNot(p) => TNot(Fixed(p))
    case TAnd(p) => TAnd(Fixed(p))
    case TBehind(p, n) => TBehind(Fixed(p), n)
    case TSeq(p1, p2) =>
      RotateKeeps(GSeq, p1, p2);
      var r := Rotate(GSeq, p1, p2);
      FlatBin(GSeq, r.p1, r.p2);
      TSeq(Fixed(r.p1), Fixed(r.p2))
    case TChoice(p1, p2) =>
      RotateKeeps(GChoice, p1, p2);
      var r := Rotate(GChoice, p1, p2);
      FlatBin(GChoice, r.p1, r.p2);
      TChoice(Fixed(r.p1), Fixed(r.p2))
    case _ => t
  }

  /** No sequence has a sequence as first child, no choice a choice. */
  predicate LeansRight(t: Tree) {
    match t
    case TRep(p) => LeansRight(p)
    case TNot(p) => LeansRight(p)
    case TAnd(p) => LeansRight(p)
    case TBehind(p, _) => LeansRight(p)
    case TSeq(p1, p2) => !p1.TSeq? && LeansRight(p1) && LeansRight(p2)
    case TChoice(p1, p2) => !p1.TChoice? && LeansRight(p1) && LeansRight(p2)
    case _ => true
  }

  lemma {:induction false} RepCongruent(p: Tree, q: Tree, s: Subject, i: nat)
    requires Same(p, q) && i <= |s|
    ensures Match(TRep(p), s, i) == Match(TRep(q), s, i)
    decreases |s| - i
  {
    var r := Match(p, s, i);
    if r.Some? && r.value > i { RepCongruent(p, q, s, r.value); }
  }

  lemma UnaryAnalyses(p: Tree, n: nat)
    ensures Nullable(TRep(p)) && Nullable(TNot(p)) && Nullable(TAnd(p)) && Nullable(TBehind(p, n))
    ensures FixedLen(TRep(p)) == -1 && FixedLen(TNot(p)) == FixedLen(TAnd(p)) == FixedLen(TBehind(p, n)) == 0
    ensures WellFormed(TRep(p)) <==> WellFormed(p) && !Nullable(p)
    ensures WellFormed(TNot(p)) <==> WellFormed(p)
    ensures WellFormed(TAnd(p)) <==> WellFormed(p)
    ensures WellFormed(TBehind(p, n)) <==> WellFormed(p) && FixedLen(p) == n && n <= MAXBEHIND
    ensures |Flat(TRep(p))| == |Flat(TNot(p))| == |Flat(TAnd(p))| == |Flat(TBehind(p, n))| == 1 + |Flat(p)|
  {
  }

  lemma UnaryAlike(p: Tree, q: Tree, n: nat)
    requires Alike(p, q)
    ensures Alike(TRep(p), TRep(q)) && Alike(TNot(p), TNot(q)) && Alike(TAnd(p), TAnd(q))
    ensures Alike(TBehind(p, n), TBehind(q, n))
  {
    hide WellFormed, FixedLen, CheckAux, Flat;
    UnaryAnalyses(p, n);
    UnaryAnalyses(q, n);
  }

  lemma UnaryEquivalent(p: Tree, q: Tree, n: nat)
    requires Equivalent(p, q)
    ensures Equivalent(TRep(p), TRep(q)) && Equivalent(TNot(p), TNot(q)) && Equivalent(TAnd(p), TAnd(q))
    ensures Equivalent(TBehind(p, n), TBehind(q, n))
  {
    hide Alike;
    UnaryAlike(p, q, n);
    forall s: Subject, i: nat | i <= |s|
      ensures Match(TRep(p), s, i) == Match(TRep(q), s, i)
      ensures Match(TNot(p), s, i) == Match(TNot(q), s, i)
      ensures Match(TAnd(p), s, i) == Match(TAnd(q), s, i)
      ensures Match(TBehind(p, n), s, i) == Match(TBehind(q, n), s, i)
    {
      RepCongruent(p, q, s, i);
    }
  }

  lemma PairAlike(g: Tag, p1: Tree, p2: Tree, q1: Tree, q2: Tree)
    requires Associative(g) && Alike(p1, q1) && Alike(p2, q2)
    ensures Alike(Bin(g, p1, p2), Bin(g, q1, q2))
  {
    hide WellFormed, FixedLen, CheckAux, Flat;
    PairAnalyses(g, p1, p2);
    PairAnalyses(g, q1, q2);
  }

  lemma PairSameAt(g: Tag, p1: Tree, p2: Tree, q1: Tree, q2: Tree, s: Subject, i: nat)
    requires Associative(g) && Same(p1, q1) && Same(p2, q2) && i <= |s|
    ensures Match(Bin(g, p1, p2), s, i) == Match(Bin(g, q1, q2), s, i)
  {
    hide Match, Bin;
    PairMatch(g, p1, p2, s, i);
    PairMatch(g, q1, q2, s, i);
    assert Match(p1, s, i) == Match(q1, s, i);
  }

  lemma PairCongruent(g: Tag, p1: Tree, p2: Tree, q1: Tree, q2: Tree)
    requires Associative(g) && Equivalent(p1, q1) && Equivalent(p2, q2)
    ensures Equivalent(Bin(g, p1, p2), Bin(g, q1, q2))
  {
    hide Alike, Match, Bin;
    PairAlike(g, p1, p2, q1, q2);
    var l, r := Bin(g, p1, p2), Bin(g, q1, q2);
    assert Same(l, r) by {
      forall s: Subject, i: nat | i <= |s| ensures Match(l, s, i) == Match(r, s, i) {
        PairSameAt(g, p1, p2, q1, q2, s, i);
      }
    }
  }

  lemma PairMatch(g: Tag, p: Tree, q: Tree, s: Subject, i: nat)
    requires Associative(g) && i <= |s|
    ensures var r := Match(p, s, i);
      Match(Bin(g, p, q), s, i) ==
      if g == GSeq then (if r.None? then None else Match(q, s, r.value))
      else if r.Some? then r else Match(q, s, i)
  {
    if g == GSeq { SeqMatch(p, q, s, i); } else { ChoiceMatch(p, q, s, i); }
    hide Match;
  }

  lemma SeqMatch(p: Tree, q: Tree, s: Subject, i: nat)
    requires i <= |s|
    ensures
      var r := Match(p, s, i);
      Match(TSeq(p, q), s, i) == if r.None? then None else Match(q, s, r.value)
  {
  }

  lemma ChoiceMatch(p: Tree, q: Tree, s: Subject, i: nat)
    requires i <= |s|
    ensures
      var r := Match(p, s, i);
      Match(TChoice(p, q), s, i) == if r.Some? then r else Match(q, s, i)
  {
  }

  lemma EquivalentTrans(a: Tree, b: Tree, c: Tree)
    requires Equivalent(a, b) && Equivalent(b, c)
    ensures Equivalent(a, c)
  {
    hide WellFormed, Match, FixedLen, CheckAux, Flat;
    assert Alike(a, c);
  }

  /** The fixed tree means the same, is as large, and leans to the right throughout. */
  lemma {:induction false} FixedKeeps(t: Tree)
    ensures Equivalent(t, Fixed(t)) && LeansRight(Fixed(t))
    ensures TagOf(Fixed(t)) == TagOf(t)
    decreases |Flat(t)|
  {
    hide Equivalent, Rotate;
    match t
    case TRep(p) => FixedKeeps(p); UnaryEquivalent(p, Fixed(p), 0);
    case TNot(p) => FixedKeeps(p); UnaryEquivalent(p, Fixed(p), 0);
    case TAnd(p) => FixedKeeps(p); UnaryEquivalent(p, Fixed(p), 0);
    case TBehind(p, n) => FixedKeeps(p); UnaryEquivalent(p, Fixed(p), n);
    case TSeq(p1, p2) => FixedPair(GSeq, p1, p2);
    case TChoice(p1, p2) => FixedPair(GChoice, p1, p2);
    case _ => EquivalentRefl(t);
  }

  lemma EquivalentRefl(t: Tree)
    ensures Equivalent(t, t)
  {
  }

  lemma EquivalentSize(a: Tree, b: Tree)
    requires Equivalent(a, b)
    ensures |Flat(a)| == |Flat(b)|
  {
  }

  lemma FixedPair(g: Tag, p1: Tree, p2: Tree)
    requires Associative(g)
    ensures var t := Bin(g, p1, p2); Equivalent(t, Fixed(t)) && LeansRight(Fixed(t)) && TagOf(Fixed(t)) == TagOf(t)
    decreases |Flat(Bin(g, p1, p2))|, 0
  {
    hide Equivalent, Rotate;
    var t, r := Bin(g, p1, p2), Rotate(g, p1, p2);
    RotateKeeps(g, p1, p2);
    EquivalentSize(t, r);
    FlatBin(g, r.p1, r.p2);
    FixedKeeps(r.p1);
    FixedKeeps(r.p2);
    PairCongruent(g, r.p1, r.p2, Fixed(r.p1), Fixed(r.p2));
    assert Fixed(t) == Bin(g, Fixed(r.p1), Fixed(r.p2));
    EquivalentTrans(t, r, Fixed(t));
    TagIsKind(g, Fixed(r.p1));
    TagIsKind(g, Fixed(t));
    TagIsKind(g, t);
  }

  // ----- in place -----

  ghost predicate Holds(a: Nodes, at: int, f: Nodes) {
    0 <= at && at + |f| <= |a| && a[at..at + |f|] == f
  }

  /** Everything outside `[lo, hi)` is as before. */
  twostate predicate OnlyWithin(a: array<Node>, lo: int, hi: int)
    reads a
  {
    forall k :: 0 <= k < a.Length && !(lo <= k < hi) ==> a[k] == old(a[k])
  }

  /** `memmove` to the slot just before. */
  method MoveDown(a: array<Node>, dst: int, n: int)
    requires 0 <= dst && 0 <= n && dst + n + 1 <= a.Length
    modifies a
    ensures forall k :: dst <= k < dst + n ==> a[k] == old(a[k + 1])
    ensures forall k :: 0 <= k < a.Length && !(dst <= k < dst + n) ==> a[k] == old(a[k])
  {
    var j := 0;
    while j < n
      invariant 0 <= j <= n
      invariant forall k :: dst <= k < dst + j ==> a[k] == old(a[k + 1])
      invariant forall k :: 0 <= k < a.Length && !(dst <= k < dst + j) ==> a[k] == old(a[k])
    {
      a[dst + j] := a[dst + j + 1];
      j := j + 1;
    }
  }

  /** One turn of the loop in `correctassociativity`. */
  method RotateOnce(a: array<Node>, tree: int, g: Tag, ghost x: Nodes, ghost y: Nodes, ghost z: Nodes)
    requires Associative(g)
    requires Holds(a[..], tree, Pair(g, Pair(g, x, y), z))
    modifies a
    ensures Holds(a[..], tree, Pair(g, x, Pair(g, y, z)))
    ensures OnlyWithin(a, tree, tree + |x| + |y| + |z| + 2)
  {
    ghost var was := Pair(g, Pair(g, x, y), z);
    ghost var now := Pair(g, x, Pair(g, y, z));
    forall k | 0 <= k < |was| ensures a[tree + k] == was[k] {
      assert a[..][tree..tree + |was|][k] == a[tree + k];
    }
    assert was[0] == Node(g, 2 + |x| + |y|) && was[1] == Node(g, 1 + |x|);
    var n1size := a[tree].u - 1;
    var n11size := a[tree + 1].u - 1;
    var n12size := n1size - n11size - 1;
    MoveDown(a, tree + 1, n11size);
    a[tree] := Node(g, n11size + 1);
    a[tree + a[tree].u] := Node(g, n12size + 1);
    assert forall k :: 0 <= k < |now| ==> a[tree + k] == now[k];
    assert a[..][tree..tree + |now|] == now;
  }

  lemma HoldsAt(a: Nodes, at: int, f: Nodes, k: int)
    requires Holds(a, at, f) && 0 <= k < |f|
    ensures a[at + k] == f[k]
  {
    assert a[at..at + |f|][k] == a[at + k];
  }

  /** Makes the node at `tree` right associative, in place. */
  method CorrectAssociativity(a: array<Node>, tree: int, g: Tag, ghost p1: Tree, ghost p2: Tree)
    requires Associative(g)
    requires Holds(a[..], tree, Flat(Bin(g, p1, p2)))
    modifies a
    ensures Holds(a[..], tree, Flat(Rotate(g, p1, p2)))
    ensures OnlyWithin(a, tree, tree + |Flat(Bin(g, p1, p2))|)
  {
    hide Flat;
    ghost var n := |Flat(Bin(g, p1, p2))|;
    ghost var l, r := p1, p2;
    FirstChild(a[..], tree, g, l, r);
    while a[tree + 1].tag == g
      invariant Holds(a[..], tree, Flat(Bin(g, l, r))) && |Flat(Bin(g, l, r))| == n
      invariant tree + 1 < a.Length && a[tree + 1].Node? && a[tree + 1].tag == TagOf(l)
      invariant Rotate(g, l, r) == Rotate(g, p1, p2)
      invariant OnlyWithin(a, tree, tree + n)
      decreases l
    {
      TagIsKind(g, l);
      FlatBin(g, l.p1, l.p2);
      FlatBin(g, l, r);
      FlatBin(g, l.p2, r);
      FlatBin(g, l.p1, Bin(g, l.p2, r));
      FlatRotates(g, l.p1, l.p2, r);
      RotateOnce(a, tree, g, Flat(l.p1), Flat(l.p2), Flat(r));
      l, r := l.p1, Bin(g, l.p2, r);
      FirstChild(a[..], tree, g, l, r);
    }
    TagIsKind(g, l);
  }

  lemma HoldsSplit(a: Nodes, at: int, x: Nodes, y: Nodes)
    requires Holds(a, at, x + y)
    ensures Holds(a, at, x) && Holds(a, at + |x|, y)
  {
    assert a[at..at + |x|] == a[at..at + |x + y|][..|x|];
    assert a[at + |x|..at + |x + y|] == a[at..at + |x + y|][|x|..];
  }

  lemma HoldsPair(a: Nodes, tree: int, g: Tag, f1: Nodes, f2: Nodes)
    requires Holds(a, tree, Pair(g, f1, f2)) && f1 != []
    ensures 0 <= tree && tree + 1 + |f1| + |f2| <= |a| && a[tree + 1] == f1[0]
    ensures a[tree] == Node(g, 1 + |f1|)
    ensures Holds(a, tree + 1, f1) && Holds(a, tree + 1 + |f1|, f2)
  {
    HoldsSplit(a, tree, [Node(g, 1 + |f1|)] + f1, f2);
    HoldsSplit(a, tree, [Node(g, 1 + |f1|)], f1);
    HoldsAt(a, tree, [Node(g, 1 + |f1|)], 0);
    HoldsAt(a, tree + 1, f1, 0);
  }

  lemma FirstChild(a: Nodes, tree: int, g: Tag, p1: Tree, p2: Tree)
    requires Associative(g) && Holds(a, tree, Flat(Bin(g, p1, p2)))
    ensures 0 <= tree && tree + 1 < |a| && a[tree + 1] == Flat(p1)[0]
    ensures tree + 1 + |Flat(p1)| + |Flat(p2)| <= |a|
    ensures a[tree] == Node(g, 1 + |Flat(p1)|)
    ensures Holds(a, tree + 1, Flat(p1)) && Holds(a, tree + 1 + |Flat(p1)|, Flat(p2))
  {
    hide Flat;
    FlatBin(g, p1, p2);
    HoldsPair(a, tree, g, Flat(p1), Flat(p2));
  }

  predicate OneChild(t: Tree) { t.TRep? || t.TNot? || t.TAnd? || t.TBehind? }

  function WithChild(t: Tree, q: Tree): Tree
    requires OneChild(t)
  {
    if t.TRep? then TRep(q) else if t.TNot? then TNot(q) else if t.TAnd? then TAnd(q) else TBehind(q, t.n)
  }

  lemma OnlyChild(a: Nodes, at: int, t: Tree)
    requires OneChild(t) && Holds(a, at, Flat(t))
    ensures at + 1 < |a| && Holds(a, at + 1, Flat(t.p)) && |Flat(t)| == 1 + |Flat(t.p)|
  {
    var f := Flat(t);
    assert f[1..] == Flat(t.p);
    assert a[at + 1..at + |f|] == f[1..];
  }

  lemma JoinChild(a: Nodes, at: int, t: Tree, q: Tree)
    requires OneChild(t) && 0 <= at < |a| && a[at] == Flat(t)[0] && Holds(a, at + 1, Flat(q))
    requires |Flat(q)| == |Flat(t.p)|
    ensures Holds(a, at, Flat(WithChild(t, q)))
  {
    var f := Flat(WithChild(t, q));
    assert f == [Flat(t)[0]] + Flat(q);
    assert a[at..at + |f|] == [a[at]] + a[at + 1..at + |f|];
  }

  lemma HoldsStays(a: Nodes, b: Nodes, at: int, f: Nodes)
    requires Holds(a, at, f) && |a| == |b|
    requires forall k :: at <= k < at + |f| ==> a[k] == b[k]
    ensures Holds(b, at, f)
  {
    assert b[at..at + |f|] == a[at..at + |f|];
  }

  lemma JoinPair(a: Nodes, at: int, g: Tag, q1: Tree, q2: Tree)
    requires Associative(g) && 0 <= at < |a| && a[at] == Node(g, 1 + |Flat(q1)|)
    requires Holds(a, at + 1, Flat(q1)) && Holds(a, at + 1 + |Flat(q1)|, Flat(q2))
    ensures Holds(a, at, Flat(Bin(g, q1, q2)))
  {
    hide Flat;
    FlatBin(g, q1, q2);
    var m, n := |Flat(q1)|, |Flat(q2)|;
    assert a[at..at + 1 + m + n] == [a[at]] + a[at + 1..at + 1 + m] + a[at + 1 + m..at + 1 + m + n];
  }

  /** `finalfix` on a tree without open calls: fixes the associativity everywhere below `at`. */
  method FinalFix(a: array<Node>, at: int, ghost t: Tree)
    requires Holds(a[..], at, Flat(t))
    modifies a
    ensures Holds(a[..], at, Flat(Fixed(t)))
    ensures OnlyWithin(a, at, at + |Flat(t)|)
    decreases |Flat(t)|
  {
    HoldsAt(a[..], at, Flat(t), 0);
    var g := a[at].tag;
    if g == GSeq || g == GChoice {
      TagIsKind(g, t);
      FixPair(a, at, g, t.p1, t.p2);
    } else if g in {GRep, GNot, GAnd, GBehind} {
      OnlyChild(a[..], at, t);
      FinalFix(a, at + 1, t.p);
      FixedKeeps(t.p);
      JoinChild(a[..], at, t, Fixed(t.p));
    }
  }

  method FixPair(a: array<Node>, at: int, g: Tag, ghost p1: Tree, ghost p2: Tree)
    requires Associative(g) && Holds(a[..], at, Flat(Bin(g, p1, p2)))
    modifies a
    ensures Holds(a[..], at, Flat(Fixed(Bin(g, p1, p2))))
    ensures OnlyWithin(a, at, at + |Flat(Bin(g, p1, p2))|)
    decreases |Flat(Bin(g, p1, p2))|, 0
  {
    hide Flat, Rotate, Holds, Fixed, Bin;
    FixedBin(g, p1, p2);
    ghost var r := Rotate(g, p1, p2);
    CorrectAssociativity(a, at, g, p1, p2);
    FirstChild(a[..], at, g, r.p1, r.p2);
    var second := at + a[at].u;
    ghost var was := a[..];
    FinalFix(a, at + 1, r.p1);
    HoldsStays(was, a[..], second, Flat(r.p2));
    was := a[..];
    FinalFix(a, second, r.p2);
    HoldsStays(was, a[..], at + 1, Flat(Fixed(r.p1)));
    JoinPair(a[..], at, g, Fixed(r.p1), Fixed(r.p2));
  }

  lemma FixedBin(g: Tag, p1: Tree, p2: Tree)
    requires Associative(g)
    ensures var r := Rotate(g, p1, p2);
      && (r.TSeq? || r.TChoice?)
      && r == Bin(g, r.p1, r.p2)
      && Fixed(Bin(g, p1, p2)) == Bin(g, Fixed(r.p1), Fixed(r.p2))
      && |Flat(Bin(g, p1, p2))| == 1 + |Flat(r.p1)| + |Flat(r.p2)|
      && |Flat(Fixed(r.p1))| == |Flat(r.p1)|
      && |Flat(Fixed(r.p2))| == |Flat(r.p2)|
  {
    hide Flat, Rotate;
    var r := Rotate(g, p1, p2);
    RotateKeeps(g, p1, p2);
    EquivalentSize(Bin(g, p1, p2), r);
    FlatBin(g, r.p1, r.p2);
    FixedKeeps(r.p1);
    FixedKeeps(r.p2);
  }
}
