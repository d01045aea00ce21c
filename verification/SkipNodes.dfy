/** The nodes of the span-indexed skip list of lualib-src/skiplist: their order, what their links and spans
    have to be, the search loops, and the insertion of a node. */
module SkipNodes {
  import opened Common
  import opened SkipLinks

  const MAXLEVEL := 32

  // ----- the order of members -----

  /** A member and its score; the source's scores are doubles other than NaN. */
  datatype Key = Key(score: real, obj: seq<Byte>)

  predicate Less(a: Key, b: Key) {
    a.score < b.score || (a.score == b.score && Compare(a.obj, b.obj) < 0)
  }

  lemma LessChains(a: Key, b: Key, c: Key)
    requires !Less(b, a) && Less(b, c)
    ensures Less(a, c)
  {
    CompareFlips(a.obj, b.obj);
    CompareFlips(b.obj, a.obj);
    if a.score == b.score == c.score { CompareChains(a.obj, b.obj, c.obj); }
  }

  /** Members are ordered by score, and those of equal score by their bytes: one goes on where the other ends, or the
      first byte in which they differ is smaller. */
  lemma LessIsOrder(a: Key, b: Key)
    ensures Less(a, b) <==>
      a.score < b.score ||
      (a.score == b.score &&
       (a.obj < b.obj ||
        exists k: nat :: k < |a.obj| && k < |b.obj| && a.obj[..k] == b.obj[..k] && a.obj[k] < b.obj[k]))
  {
    hide Compare;
    CompareIsOrder(a.obj, b.obj);
  }

  /** No later key is less than an earlier one. */
  predicate Sorted(ks: seq<Key>) { forall i, j :: 0 <= i < j < |ks| ==> !Less(ks[j], ks[i]) }

  /** How many keys are less than `k`. */
  function Rank(ks: seq<Key>, k: Key): (r: nat)
    ensures r <= |ks|
    ensures forall i :: 0 <= i < r ==> Less(ks[i], k)
    ensures r < |ks| ==> !Less(ks[r], k)
  {
    if ks == [] || !Less(ks[0], k) then 0
    else
      assert forall i :: 1 <= i < |ks| ==> ks[i] == ks[1..][i - 1];
      1 + Rank(ks[1..], k)
  }

  // ----- the list -----

  /** The address of a node. */
  type Id = nat

  const HEADER: Id := 0

  /** `struct skiplistNode`; the header has no member. */
  datatype Node = Node(key: Option<Key>, backward: Option<Id>, forward: seq<Option<Id>>, span: seq<int>)

  type Heap = map<Id, Node>

  function Heights(heap: Heap, order: seq<Id>): (h: seq<nat>)
    requires forall i :: 0 <= i < |order| ==> order[i] in heap
    ensures |h| == |order|
    ensures forall i :: 0 <= i < |h| ==> h[i] == |heap[order[i]].forward|
  {
    seq(|order|, i requires 0 <= i < |order| => |heap[order[i]].forward|)
  }

  /** The nodes of the list, the header first. */
  predicate Listed(heap: Heap, order: seq<Id>) {
    order != [] && order[0] == HEADER &&
    (forall i :: 0 <= i < |order| ==>
      order[i] in heap && 0 < |heap[order[i]].forward| == |heap[order[i]].span| <= MAXLEVEL &&
      (i > 0 <==> heap[order[i]].key.Some?)) &&
    (forall i, j :: 0 <= i < j < |order| ==> order[i] != order[j]) &&
    |heap[HEADER].forward| == MAXLEVEL
  }

  function At(order: seq<Id>, j: nat): Option<Id> { if j < |order| then Some(order[j]) else None }

  /** The link of node `i` on level `l` leads to the next node of that level, and its span is the
      distance in the list, or that to the last node if there is no next one. */
  predicate LinkOk(heap: Heap, order: seq<Id>, i: nat, l: nat)
    requires Listed(heap, order) && i < |order| && l < |heap[order[i]].forward|
  {
    var h := Heights(heap, order);
    var j := NextAt(h, i, l);
    heap[order[i]].forward[l] == At(order, j) &&
    heap[order[i]].span[l] == (if j < |order| then j else |order| - 1) - i
  }

  predicate Linked(heap: Heap, order: seq<Id>, level: nat) {
    Listed(heap, order) && 0 < level <= MAXLEVEL &&
    (forall i :: 0 < i < |order| ==> |heap[order[i]].forward| <= level) &&
    (forall l :: level <= l < MAXLEVEL ==> heap[HEADER].forward[l] == None) &&
    (forall i, l :: 0 <= i < |order| && 0 <= l < level && l < |heap[order[i]].forward| ==> LinkOk(heap, order, i, l))
  }

  /** Backward links, from the second member on. */
  predicate Backward(heap: Heap, order: seq<Id>, tail: Option<Id>)
    requires Listed(heap, order)
  {
    (forall i :: 0 < i < |order| ==> heap[order[i]].backward == if i == 1 then None else Some(order[i - 1])) &&
    tail == if |order| == 1 then None else Some(order[|order| - 1])
  }

  function Keys(heap: Heap, order: seq<Id>): (ks: seq<Key>)
    requires Listed(heap, order)
    ensures |ks| == |order| - 1
    ensures forall i :: 0 <= i < |ks| ==> heap[order[i + 1]].key == Some(ks[i])
  {
    seq(|order| - 1, i requires 0 <= i < |order| - 1 => heap[order[i + 1]].key.value)
  }

  /** A skip list with the nodes `order`. */
  predicate Good(heap: Heap, order: seq<Id>, level: nat, tail: Option<Id>, length: nat) {
    Linked(heap, order, level) && Backward(heap, order, tail) && length == |order| - 1 &&
    Sorted(Keys(heap, order)) && Even(heap)
  }

  /** Every node has a span for each link. */
  predicate Even(heap: Heap) { forall id <- heap :: |heap[id].span| == |heap[id].forward| }

  // ----- searching -----

  /** On level `l` the search has stopped at node `x` of index `c`, the last one up to `r`, or the header. */
  predicate Stop(heap: Heap, order: seq<Id>, l: nat, x: Id, c: nat, r: nat)
    requires Listed(heap, order)
  {
    IsPrev(Heights(heap, order), r, l, c) && order[c] == x
  }

  /** What the search loops of `slInsert` and `slDelete` leave: on each level the last node of the first
      `r` members, or the header. */
  predicate Found(heap: Heap, order: seq<Id>, level: nat, update: seq<Id>, rank: seq<nat>, r: nat)
    requires Listed(heap, order)
  {
    |update| == MAXLEVEL == |rank| && level <= MAXLEVEL &&
    forall l :: 0 <= l < level ==> Stop(heap, order, l, update[l], rank[l], r)
  }

  /** What is known of the link of the node at index `c`. */
  lemma LinkAt(heap: Heap, order: seq<Id>, level: nat, c: nat, l: nat)
    requires Linked(heap, order, level) && c < |order| && l < level && Heights(heap, order)[c] > l
    ensures order[c] in heap && l < |heap[order[c]].forward| == |heap[order[c]].span|
    ensures
      var j := NextAt(Heights(heap, order), c, l);
      heap[order[c]].forward[l] == At(order, j) &&
      heap[order[c]].span[l] == (if j < |order| then j else |order| - 1) - c &&
      (j < |order| ==> order[j] in heap && heap[order[j]].key == Some(Keys(heap, order)[j - 1]))
  {
    assert LinkOk(heap, order, c, l);
  }

  /** The condition of a search loop: whether to go on to a node with the given key and index. */
  type Test = (Key, nat) -> bool

  /** A search with test `pass` goes on exactly up to index `r`. */
  ghost predicate Splits(ks: seq<Key>, pass: Test, r: nat) {
    r <= |ks| && forall i :: 0 <= i < |ks| ==> (pass(ks[i], i + 1) <==> i < r)
  }

  /** One test of a search loop, and the node it goes on to. The loops of the source differ in the test only. */
  method Ahead(heap: Heap, ghost order: seq<Id>, ghost level: nat, pass: Test, ghost r: nat, l: nat, x: Id, c: nat)
    returns (go: bool, y: Id, d: nat)
    requires Linked(heap, order, level) && l < level && Splits(Keys(heap, order), pass, r)
    requires c <= r && order[c] == x && Heights(heap, order)[c] > l
    ensures go ==> c < d <= r && order[d] == y && Heights(heap, order)[d] > l
    ensures !go ==> y == x && d == c && Stop(heap, order, l, x, c, r)
  {
    hide *;
    AheadIs(heap, order, level, pass, r, l, c);
    go, y, d := false, x, c;
    var next := heap[x].forward[l];
    if next.Some? && pass(heap[next.value].key.value, c + heap[x].span[l]) {
      go, y, d := true, next.value, c + heap[x].span[l];
    }
  }

  /** What the node after index `c` on level `l` tells the search. */
  lemma AheadIs(heap: Heap, order: seq<Id>, level: nat, pass: Test, r: nat, l: nat, c: nat)
    requires Linked(heap, order, level) && l < level && Splits(Keys(heap, order), pass, r)
    requires c <= r && Heights(heap, order)[c] > l
    ensures c < |order| && order[c] in heap && l < |heap[order[c]].forward| == |heap[order[c]].span|
    ensures
      var next := heap[order[c]].forward[l];
      (next.Some? ==>
        var d := c + heap[order[c]].span[l];
        next.value in heap && heap[next.value].key.Some? && c < d < |order| && order[d] == next.value &&
        Heights(heap, order)[d] > l) &&
      if next.Some? && pass(heap[next.value].key.value, c + heap[order[c]].span[l])
      then c + heap[order[c]].span[l] <= r
      else Stop(heap, order, l, order[c], c, r)
  {
    HeaderHigh(heap, order, level);
    LinkAt(heap, order, level, c, l);
    var ks := Keys(heap, order);
    var j := NextAt(Heights(heap, order), c, l);
    SplitAt(ks, pass, r, j);
    hide *;
    var h := Heights(heap, order);
    StopIs(heap, order, l, c, r);
    if j > r { StopsAt(h, r, l, c); }
  }

  lemma SplitAt(ks: seq<Key>, pass: Test, r: nat, j: nat)
    requires Splits(ks, pass, r) && 0 < j <= |ks| + 1
    ensures r <= |ks| && (j <= |ks| ==> (pass(ks[j - 1], j) <==> j <= r))
  {
  }

  lemma StopIs(heap: Heap, order: seq<Id>, l: nat, c: nat, r: nat)
    requires Listed(heap, order) && c < |order|
    ensures Stop(heap, order, l, order[c], c, r) <==> IsPrev(Heights(heap, order), r, l, c)
  {
  }

  /** The search loop of one level. */
  method Walk(heap: Heap, ghost order: seq<Id>, ghost level: nat, pass: Test, ghost r: nat, l: nat, x0: Id, c0: nat)
    returns (x: Id, c: nat)
    requires Linked(heap, order, level) && l < level && Splits(Keys(heap, order), pass, r)
    requires c0 <= r && order[c0] == x0 && Heights(heap, order)[c0] > l
    ensures Stop(heap, order, l, x, c, r)
  {
    HeaderHigh(heap, order, level);
    hide *;
    x, c := x0, c0;
    var go := true;
    while go
      invariant c <= r && c < |Heights(heap, order)| == |order| && order[c] == x && Heights(heap, order)[c] > l
      invariant !go ==> Stop(heap, order, l, x, c, r)
      decreases |order| - c, go
    {
      go, x, c := Ahead(heap, order, level, pass, r, l, x, c);
    }
  }

  /** The search over all levels, from the highest down; `rank` is the number of members passed. */
  method Search(heap: Heap, ghost order: seq<Id>, level: nat, pass: Test, ghost r: nat)
    returns (update: seq<Id>, rank: seq<nat>)
    requires Linked(heap, order, level) && Splits(Keys(heap, order), pass, r)
    ensures Found(heap, order, level, update, rank, r)
  {
    HeaderHigh(heap, order, level);
    hide Linked, IsPrev, Splits;
    update, rank := seq(MAXLEVEL, _ => HEADER), seq(MAXLEVEL, _ => 0);
    var x := HEADER;
    var i := level;
    while i > 0
      invariant 0 <= i <= level && |update| == MAXLEVEL == |rank|
      invariant forall l :: i <= l < level ==> Stop(heap, order, l, update[l], rank[l], r)
      invariant i < level ==> x == update[i]
      invariant i == level ==> x == HEADER
    {
      i := i - 1;
      if i < level - 1 { StopAt(heap, order, i + 1, x, rank[i + 1], r); }
      rank := rank[i := if i == level - 1 then 0 else rank[i + 1]];
      var c: nat;
      x, c := Walk(heap, order, level, pass, r, i, x, rank[i]);
      rank := rank[i := c];
      update := update[i := x];
    }
  }

  /** The keys less than a key are the first ones. */
  lemma LessSplits(ks: seq<Key>, k: Key)
    requires Sorted(ks)
    ensures Splits(ks, (key, _) => Less(key, k), Rank(ks, k))
  {
    forall i | 0 <= i < |ks| ensures Less(ks[i], k) <==> i < Rank(ks, k) { RankSplit(ks, k, i); }
  }

  lemma HeaderHigh(heap: Heap, order: seq<Id>, level: nat)
    requires Linked(heap, order, level)
    ensures 0 < level <= MAXLEVEL && |order| > 0 && order[0] == HEADER && Heights(heap, order)[0] == MAXLEVEL
    ensures Listed(heap, order)
  {
  }

  lemma StopAt(heap: Heap, order: seq<Id>, l: nat, x: Id, c: nat, r: nat)
    requires Listed(heap, order) && Stop(heap, order, l, x, c, r)
    ensures c <= r && c < |order| && order[c] == x && Heights(heap, order)[c] > l
  {
  }

  // ----- insertion -----

  function PutId(order: seq<Id>, r: nat, x: Id): seq<Id>
    requires r < |order|
  {
    order[..r + 1] + [x] + order[r + 1..]
  }

  /** Level `l` of node `id` while the new node `x` of height `n` is spliced in: the levels up to `done`
      have been seen to. */
  predicate SplicedAt(heap: Heap, heap': Heap, x: Id, n: nat, update: seq<Id>, rank: seq<nat>, done: nat, id: Id,
                      l: nat)
    requires id in heap && id in heap' && l < |heap[id].forward| == |heap'[id].forward|
    requires |heap[id].span| == |heap'[id].span| == |heap[id].forward|
    requires |update| == |rank| == MAXLEVEL && done <= MAXLEVEL
  {
    var a, b := heap[id], heap'[id];
    if l < done && id == update[l] then
      b.forward[l] == (if l < n then Some(x) else a.forward[l]) &&
      b.span[l] == if l < n then rank[0] as int - rank[l] + 1 else a.span[l] + 1
    else b.forward[l] == a.forward[l] && b.span[l] == a.span[l]
  }

  predicate SameShape(heap: Heap, heap': Heap, x: Id) {
    x !in heap && heap'.Keys == heap.Keys + {x} &&
    forall id <- heap ::
      heap'[id].key == heap[id].key && heap'[id].backward == heap[id].backward &&
      |heap'[id].forward| == |heap[id].forward| && |heap'[id].span| == |heap[id].span|
  }

  /** The heap when node `x` of height `n` with member `k` has been spliced in on the levels up to `done`. */
  predicate Spliced(heap: Heap, heap': Heap, x: Id, n: nat, k: Key, update: seq<Id>, rank: seq<nat>, done: nat) {
    SameShape(heap, heap', x) && |update| == |rank| == MAXLEVEL && done <= MAXLEVEL &&
    Even(heap) &&
    (forall id, l :: id in heap && 0 <= l < |heap[id].forward| ==>
      SplicedAt(heap, heap', x, n, update, rank, done, id, l)) &&
    heap'[x].key == Some(k) && |heap'[x].forward| == n == |heap'[x].span| &&
    (forall l :: 0 <= l < n && l < done ==>
      update[l] in heap && l < |heap[update[l]].forward| &&
      heap'[x].forward[l] == heap[update[l]].forward[l] &&
      heap'[x].span[l] == heap[update[l]].span[l] - (rank[0] as int - rank[l]))
  }

  /** One round of the first loop of `slInsert`. */
  method SpliceHere(heap: Heap, ghost heap0: Heap, x: Id, n: nat, ghost k: Key, update: seq<Id>, rank: seq<nat>, i: nat)
    returns (heap': Heap)
    requires Spliced(heap0, heap, x, n, k, update, rank, i) && i < n <= MAXLEVEL
    requires update[i] in heap0 && i < |heap0[update[i]].forward|
    ensures Spliced(heap0, heap', x, n, k, update, rank, i + 1)
  {
    var u := update[i];
    assert SplicedAt(heap0, heap, x, n, update, rank, i, u, i);
    var a, b := heap[u], heap[x];
    heap' := heap[
      x := b.(forward := b.forward[i := a.forward[i]], span := b.span[i := a.span[i] - (rank[0] as int - rank[i])])];
    heap' := heap'[
      u := a.(forward := a.forward[i := Some(x)], span := a.span[i := rank[0] as int - rank[i] + 1])];
    var done := i + 1;
    forall id, l | id in heap0 && 0 <= l < |heap0[id].forward|
      ensures SplicedAt(heap0, heap', x, n, update, rank, done, id, l)
    {
      assert SplicedAt(heap0, heap, x, n, update, rank, i, id, l);
    }
  }

  /** One round of the second loop, which only counts the new node. */
  method SpliceOver(heap: Heap, ghost heap0: Heap, x: Id, n: nat, ghost k: Key, update: seq<Id>, rank: seq<nat>, i: nat)
    returns (heap': Heap)
    requires Spliced(heap0, heap, x, n, k, update, rank, i) && n <= i < MAXLEVEL
    requires update[i] in heap0 && i < |heap0[update[i]].forward|
    ensures Spliced(heap0, heap', x, n, k, update, rank, i + 1)
  {
    var u := update[i];
    assert SplicedAt(heap0, heap, x, n, update, rank, i, u, i);
    heap' := heap[u := heap[u].(span := heap[u].span[i := heap[u].span[i] + 1])];
    var done := i + 1;
    forall id, l | id in heap0 && 0 <= l < |heap0[id].forward|
      ensures SplicedAt(heap0, heap', x, n, update, rank, done, id, l)
    {
      assert SplicedAt(heap0, heap, x, n, update, rank, i, id, l);
    }
  }

  /** Both loops of `slInsert`, after the new node has been made. */
  method Splice(heap: Heap, ghost order: seq<Id>, level: nat, x: Id, n: nat, k: Key, update: seq<Id>, rank: seq<nat>,
                ghost r: nat) returns (heap': Heap)
    requires Linked(heap, order, level) && Found(heap, order, level, update, rank, r)
    requires x !in heap && n <= level && Even(heap)
    ensures Spliced(heap, heap', x, n, k, update, rank, level)
  {
    hide Linked, Stop;
    heap' := heap[x := Node(Some(k), None, seq(n, _ => None), seq(n, _ => 0))];
    var i := 0;
    LevelBound(heap, order, level);
    StartSplice(heap, heap', x, n, k, update, rank);
    hide Spliced;
    while i < level
      invariant 0 <= i <= level && Spliced(heap, heap', x, n, k, update, rank, i)
    {
      StopHeap(heap, order, level, i, update[i], rank[i], r);
      if i < n {
        heap' := SpliceHere(heap', heap, x, n, k, update, rank, i);
      } else {
        heap' := SpliceOver(heap', heap, x, n, k, update, rank, i);
      }
      i := i + 1;
    }
  }

  lemma StartSplice(heap: Heap, heap': Heap, x: Id, n: nat, k: Key, update: seq<Id>, rank: seq<nat>)
    requires heap' == heap[x := Node(Some(k), None, seq(n, _ => None), seq(n, _ => 0))] && x !in heap
    requires |update| == |rank| == MAXLEVEL && Even(heap)
    ensures Spliced(heap, heap', x, n, k, update, rank, 0)
  {
  }

  lemma LevelBound(heap: Heap, order: seq<Id>, level: nat)
    requires Linked(heap, order, level)
    ensures Listed(heap, order) && 0 < level <= MAXLEVEL
  {
  }

  lemma StopHeap(heap: Heap, order: seq<Id>, level: nat, l: nat, x: Id, c: nat, r: nat)
    requires Linked(heap, order, level) && Stop(heap, order, l, x, c, r)
    ensures x in heap && l < |heap[x].forward|
  {
  }

  lemma PutHeights(heap: Heap, heap': Heap, order: seq<Id>, x: Id, n: nat, r: nat)
    requires Listed(heap, order) && SameShape(heap, heap', x) && r < |order| && |heap'[x].forward| == n
    ensures
      var o := PutId(order, r, x);
      |o| == |order| + 1 &&
      (forall i :: 0 <= i < |o| ==> o[i] in heap') && Heights(heap', o) == Put(Heights(heap, order), r, n)
  {
    var o := PutId(order, r, x);
    forall i | 0 <= i < |o|
      ensures o[i] in heap' && |heap'[o[i]].forward| == Put(Heights(heap, order), r, n)[i]
    {
      assert o[i] == if i <= r then order[i] else if i == r + 1 then x else order[i - 1];
    }
  }

  /** The new list is a list. */
  lemma PutListed(heap: Heap, heap': Heap, order: seq<Id>, x: Id, n: nat, k: Key, update: seq<Id>, rank: seq<nat>,
                  done: nat, r: nat)
    requires Listed(heap, order) && Spliced(heap, heap', x, n, k, update, rank, done) && r < |order| &&
      0 < n <= MAXLEVEL
    ensures Listed(heap', PutId(order, r, x))
  {
    var o := PutId(order, r, x);
    assert forall i :: 0 <= i < |o| ==> o[i] == if i <= r then order[i] else if i == r + 1 then x else order[i - 1];
  }

  /** The link of an old node on a level that the search has stopped on. */
  lemma PutLink(heap: Heap, heap': Heap, order: seq<Id>, level: nat, x: Id, n: nat, k: Key, update: seq<Id>,
                rank: seq<nat>, r: nat, i: nat, l: nat)
    requires Linked(heap, order, level) && Found(heap, order, level, update, rank, r) && rank[0] == r && r < |order|
    requires Spliced(heap, heap', x, n, k, update, rank, level) && 0 < n <= level
    requires Listed(heap', PutId(order, r, x))
    requires i < |order| && l < level && l < |heap[order[i]].forward|
    ensures LinkOk(heap', PutId(order, r, x), if i <= r then i else i + 1, l)
  {
    hide Spliced, Linked, Found, Stop, Heights, Listed, SameShape, NextAt, IsPrev, Put, PutId, Keys;
    LevelBound(heap, order, level);
    FoundAt(heap, order, level, update, rank, r, l);
    var h, o := Heights(heap, order), PutId(order, r, x);
    SplicedShape(heap, heap', x, n, k, update, rank, level);
    PutHeights(heap, heap', order, x, n, r);
    PutAt(order, r, x);
    LinkAt(heap, order, level, i, l);
    SplicedLink(heap, heap', x, n, k, update, rank, level, order[i], l);
    SameNode(heap, order, i, rank[l], update[l]);
    var i' := if i <= r then i else i + 1;
    assert At(o, i') == At(order, i);
    if i == rank[l] {
      NextPut(h, r, n, l, rank[l]);
    } else {
      NextPutOther(h, r, n, l, rank[l], i);
    }
  }

  lemma PutAt(order: seq<Id>, r: nat, x: Id)
    requires r < |order|
    ensures |PutId(order, r, x)| == |order| + 1
    ensures forall j: nat :: j <= r ==> At(PutId(order, r, x), j) == At(order, j)
    ensures forall j: nat :: j > r + 1 ==> At(PutId(order, r, x), j) == At(order, j - 1)
    ensures At(PutId(order, r, x), r + 1) == Some(x)
  {
  }

  /** Indices and nodes correspond. */
  lemma SameNode(heap: Heap, order: seq<Id>, i: nat, c: nat, u: Id)
    requires Listed(heap, order) && i < |order| && c < |order| && order[c] == u
    ensures order[i] == u <==> i == c
  {
  }

  lemma FoundAt(heap: Heap, order: seq<Id>, level: nat, update: seq<Id>, rank: seq<nat>, r: nat, l: nat)
    requires Listed(heap, order) && Found(heap, order, level, update, rank, r) && l < level
    ensures |update| == |rank| == MAXLEVEL && l < MAXLEVEL
    ensures rank[l] < |order| && order[rank[l]] == update[l] && IsPrev(Heights(heap, order), r, l, rank[l])
    ensures rank[l] <= r && Heights(heap, order)[rank[l]] > l
  {
    assert Stop(heap, order, l, update[l], rank[l], r);
  }

  lemma SplicedShape(heap: Heap, heap': Heap, x: Id, n: nat, k: Key, update: seq<Id>, rank: seq<nat>, done: nat)
    requires Spliced(heap, heap', x, n, k, update, rank, done)
    ensures SameShape(heap, heap', x) && |heap'[x].forward| == n == |heap'[x].span| && heap'[x].key == Some(k)
  {
  }

  lemma SplicedLink(heap: Heap, heap': Heap, x: Id, n: nat, k: Key, update: seq<Id>, rank: seq<nat>, done: nat,
                    id: Id, l: nat)
    requires Spliced(heap, heap', x, n, k, update, rank, done) && id in heap && l < |heap[id].forward|
    ensures id in heap' && l < |heap'[id].forward| == |heap[id].forward| &&
      |heap[id].span| == |heap'[id].span| == |heap[id].forward|
    ensures |update| == |rank| == MAXLEVEL && done <= MAXLEVEL
    ensures SplicedAt(heap, heap', x, n, update, rank, done, id, l)
  {
  }

  /** The links of the new node. */
  lemma PutLinkNew(heap: Heap, heap': Heap, order: seq<Id>, level: nat, x: Id, n: nat, k: Key, update: seq<Id>,
                   rank: seq<nat>, r: nat, l: nat)
    requires Linked(heap, order, level) && Found(heap, order, level, update, rank, r) && rank[0] == r && r < |order|
    requires Spliced(heap, heap', x, n, k, update, rank, level) && 0 < n <= level && l < n
    requires Listed(heap', PutId(order, r, x))
    ensures x in heap' && |heap'[x].forward| == n && PutId(order, r, x)[r + 1] == x
    ensures LinkOk(heap', PutId(order, r, x), r + 1, l)
  {
    hide Spliced, Linked, Found, Stop, Heights, Listed, SameShape, NextAt, IsPrev, Put, PutId, Keys;
    NewLink(heap, heap', x, n, k, update, rank, level, l);
    SplicedShape(heap, heap', x, n, k, update, rank, level);
    LevelBound(heap, order, level);
    FoundAt(heap, order, level, update, rank, r, l);
    PutHeights(heap, heap', order, x, n, r);
    PutAt(order, r, x);
    assert At(PutId(order, r, x), r + 1) == Some(x);
    LinkAt(heap, order, level, rank[l], l);
    NextPut(Heights(heap, order), r, n, l, rank[l]);
  }

  lemma NewLink(heap: Heap, heap': Heap, x: Id, n: nat, k: Key, update: seq<Id>, rank: seq<nat>, done: nat, l: nat)
    requires Spliced(heap, heap', x, n, k, update, rank, done) && l < n && l < done
    ensures x in heap' && |heap'[x].forward| == n == |heap'[x].span| && |update| == |rank| == MAXLEVEL &&
      done <= MAXLEVEL
    ensures update[l] in heap && l < |heap[update[l]].forward| == |heap[update[l]].span|
    ensures heap'[x].forward[l] == heap[update[l]].forward[l]
    ensures heap'[x].span[l] == heap[update[l]].span[l] - (rank[0] as int - rank[l])
  {
  }

  lemma PutLinked(heap: Heap, heap': Heap, order: seq<Id>, level: nat, x: Id, n: nat, k: Key, update: seq<Id>,
                  rank: seq<nat>, r: nat)
    requires Linked(heap, order, level) && Found(heap, order, level, update, rank, r) && rank[0] == r && r < |order|
    requires Spliced(heap, heap', x, n, k, update, rank, level) && 0 < n <= level
    ensures Linked(heap', PutId(order, r, x), level)
  {
    LevelBound(heap, order, level);
    PutListed(heap, heap', order, x, n, k, update, rank, level, r);
    var o := PutId(order, r, x);
    SplicedShape(heap, heap', x, n, k, update, rank, level);
    PutHeights(heap, heap', order, x, n, r);
    forall i, l | 0 <= i < |o| && 0 <= l < level && l < |heap'[o[i]].forward|
      ensures LinkOk(heap', o, i, l)
    {
      hide *;
      PutAt(order, r, x);
      PutCases(heap, heap', order, level, x, n, k, update, rank, r, i, l);
    }
    forall l | level <= l < MAXLEVEL
      ensures heap'[HEADER].forward[l] == None
    {
      hide Found, LinkOk, Stop;
      SplicedLink(heap, heap', x, n, k, update, rank, level, HEADER, l);
    }
    PutBound(heap, heap', order, level, x, n, r);
  }

  lemma PutCases(heap: Heap, heap': Heap, order: seq<Id>, level: nat, x: Id, n: nat, k: Key, update: seq<Id>,
                 rank: seq<nat>, r: nat, i: nat, l: nat)
    requires Linked(heap, order, level) && Found(heap, order, level, update, rank, r) && rank[0] == r && r < |order|
    requires Spliced(heap, heap', x, n, k, update, rank, level) && 0 < n <= level
    requires Listed(heap', PutId(order, r, x))
    requires i < |order| + 1 && l < level && l < |heap'[PutId(order, r, x)[i]].forward|
    ensures LinkOk(heap', PutId(order, r, x), i, l)
  {
    hide *;
    SplicedShape(heap, heap', x, n, k, update, rank, level);
    OldHeight(heap, heap', order, level, x, r, i);
    if i == r + 1 {
      PutLinkNew(heap, heap', order, level, x, n, k, update, rank, r, l);
    } else {
      PutLink(heap, heap', order, level, x, n, k, update, rank, r, if i <= r then i else i - 1, l);
    }
  }

  lemma OldHeight(heap: Heap, heap': Heap, order: seq<Id>, level: nat, x: Id, r: nat, i: nat)
    requires Linked(heap, order, level) && SameShape(heap, heap', x) && r < |order| && i < |order| + 1
    requires Listed(heap', PutId(order, r, x))
    ensures Listed(heap, order) && |PutId(order, r, x)| == |order| + 1
    ensures
      var o := PutId(order, r, x);
      o[i] in heap' && (i == r + 1 ==> o[i] == x) &&
      (i != r + 1 ==>
        var j := if i <= r then i else i - 1;
        o[i] == order[j] && order[j] in heap && |heap'[o[i]].forward| == |heap[order[j]].forward|)
  {
    hide LinkOk;
    assert PutId(order, r, x)[i] == if i <= r then order[i] else if i == r + 1 then x else order[i - 1];
  }

  lemma PutBound(heap: Heap, heap': Heap, order: seq<Id>, level: nat, x: Id, n: nat, r: nat)
    requires Linked(heap, order, level) && SameShape(heap, heap', x) && r < |order| && |heap'[x].forward| == n <= level
    requires Listed(heap', PutId(order, r, x))
    ensures
      var o := PutId(order, r, x);
      forall i :: 0 < i < |o| ==> |heap'[o[i]].forward| <= level
  {
    hide LinkOk;
    var o := PutId(order, r, x);
    assert forall i :: 0 <= i < |o| ==> o[i] == if i <= r then order[i] else if i == r + 1 then x else order[i - 1];
  }

  /** Only spans of the header on levels from `level` on differ. */
  predicate Raised(heap: Heap, heap': Heap, level: nat, done: nat, length: nat) {
    heap'.Keys == heap.Keys && HEADER in heap && |heap[HEADER].span| == MAXLEVEL == |heap'[HEADER].span| &&
    done <= MAXLEVEL &&
    (forall id <- heap :: heap'[id] == heap[id].(span := heap'[id].span) && (id != HEADER ==> heap'[id] == heap[id])) &&
    forall l :: 0 <= l < MAXLEVEL ==>
      heap'[HEADER].span[l] == if level <= l < done then length else heap[HEADER].span[l]
  }

  /** `slInsert`: levels that the list has not had so far start at the header. */
  method Raise(heap: Heap, ghost order: seq<Id>, level: nat, n: nat, length: nat, update: seq<Id>, rank: seq<nat>,
               ghost r: nat)
    returns (heap': Heap, update': seq<Id>, rank': seq<nat>)
    requires Linked(heap, order, level) && Found(heap, order, level, update, rank, r)
    requires level < n <= MAXLEVEL && length == |order| - 1
    ensures Raised(heap, heap', level, n, length)
    ensures |update'| == |rank'| == MAXLEVEL && update'[..level] == update[..level] && rank'[..level] == rank[..level]
    ensures forall l :: level <= l < n ==> update'[l] == HEADER && rank'[l] == 0
  {
    HeaderHigh(heap, order, level);
    hide Linked, Stop, Heights;
    heap', update', rank' := heap, update, rank;
    var i := level;
    while i < n
      invariant level <= i <= n && Raised(heap, heap', level, i, length)
      invariant |update'| == |rank'| == MAXLEVEL && update'[..level] == update[..level] &&
        rank'[..level] == rank[..level]
      invariant forall l :: level <= l < i ==> update'[l] == HEADER && rank'[l] == 0
    {
      update', rank' := update'[i := HEADER], rank'[i := 0];
      heap' := heap'[HEADER := heap'[HEADER].(span := heap'[HEADER].span[i := length])];
      i := i + 1;
    }
  }

  lemma RaisedList(heap: Heap, heap': Heap, order: seq<Id>, level: nat, n: nat, length: nat)
    requires Listed(heap, order) && Raised(heap, heap', level, n, length)
    ensures Listed(heap', order) && Heights(heap', order) == Heights(heap, order)
    ensures Keys(heap', order) == Keys(heap, order)
    ensures forall tail :: Backward(heap, order, tail) ==> Backward(heap', order, tail)
  {
  }

  /** Above the highest node the header comes last. */
  lemma RaisedLinked(heap: Heap, heap': Heap, order: seq<Id>, level: nat, n: nat, length: nat)
    requires Linked(heap, order, level) && Raised(heap, heap', level, n, length)
    requires level < n <= MAXLEVEL && length == |order| - 1
    ensures Linked(heap', order, n)
  {
    RaisedList(heap, heap', order, level, n, length);
    var h := Heights(heap, order);
    forall i, l | 0 <= i < |order| && 0 <= l < n && l < |heap'[order[i]].forward|
      ensures LinkOk(heap', order, i, l)
    {
      if l < level {
        assert LinkOk(heap, order, i, l);
      } else {
        assert i == 0;
        NextIs(h, 0, l, |order|);
      }
    }
  }

  lemma RaisedFound(heap: Heap, heap': Heap, order: seq<Id>, level: nat, n: nat, length: nat, update: seq<Id>,
                    rank: seq<nat>, update': seq<Id>, rank': seq<nat>, r: nat)
    requires Linked(heap, order, level) && Raised(heap, heap', level, n, length)
    requires Found(heap, order, level, update, rank, r) && level < n <= MAXLEVEL && r < |order|
    requires |update'| == |rank'| == MAXLEVEL && update'[..level] == update[..level] && rank'[..level] == rank[..level]
    requires forall l :: level <= l < n ==> update'[l] == HEADER && rank'[l] == 0
    ensures Listed(heap', order) && Found(heap', order, n, update', rank', r) && rank'[0] == rank[0]
  {
    RaisedList(heap, heap', order, level, n, length);
    forall l | 0 <= l < n
      ensures Stop(heap', order, l, update'[l], rank'[l], r)
    {
      if l < level {
        assert Stop(heap, order, l, update[l], rank[l], r);
        assert update'[l] == update'[..level][l] && rank'[l] == rank'[..level][l];
      }
    }
    assert rank'[0] == rank'[..level][0];
  }

  // ----- backward links -----

  /** Only backward links differ. */
  predicate SameLinks(heap: Heap, heap': Heap) {
    heap'.Keys == heap.Keys && forall id <- heap :: heap'[id] == heap[id].(backward := heap'[id].backward)
  }

  lemma SameLinked(heap: Heap, heap': Heap, order: seq<Id>, level: nat)
    requires Linked(heap, order, level) && SameLinks(heap, heap')
    ensures Linked(heap', order, level) && Keys(heap', order) == Keys(heap, order)
    ensures Heights(heap', order) == Heights(heap, order)
  {
    assert Heights(heap', order) == Heights(heap, order);
    forall i, l | 0 <= i < |order| && 0 <= l < level && l < |heap'[order[i]].forward|
      ensures LinkOk(heap', order, i, l)
    {
      assert LinkOk(heap, order, i, l);
    }
  }

  /** The last lines of `slInsert`: the new node and the one behind it get their backward links. */
  method LinkBack(heap: Heap, x: Id, u: Id, tail: Option<Id>) returns (heap': Heap, tail': Option<Id>)
    requires x in heap && heap[x].forward != [] && (heap[x].forward[0].Some? ==> heap[x].forward[0].value in heap)
    ensures SameLinks(heap, heap')
    ensures
      var f := heap[x].forward[0];
      forall id <- heap :: heap'[id].backward ==
        if f == Some(id) then Some(x)
        else if id == x then (if u == HEADER then None else Some(u))
        else heap[id].backward
    ensures tail' == if heap[x].forward[0].Some? then tail else Some(x)
  {
    heap' := heap[x := heap[x].(backward := if u == HEADER then None else Some(u))];
    var f := heap[x].forward[0];
    tail' := tail;
    if f.Some? {
      heap' := heap'[f.value := heap'[f.value].(backward := Some(x))];
    } else {
      tail' := Some(x);
    }
  }

  lemma PutBackward(heap: Heap, heap1: Heap, heap2: Heap, order: seq<Id>, r: nat, x: Id, tail: Option<Id>,
                    tail': Option<Id>, level: nat)
    requires Listed(heap, order) && Backward(heap, order, tail) && SameShape(heap, heap1, x) && r < |order|
    requires Linked(heap1, PutId(order, r, x), level) && SameLinks(heap1, heap2) && Listed(heap2, PutId(order, r, x))
    requires x in heap1 && heap1[x].forward != []
    requires
      var f := heap1[x].forward[0];
      (forall id <- heap1 :: heap2[id].backward ==
        if f == Some(id) then Some(x)
        else if id == x then (if order[r] == HEADER then None else Some(order[r])) else heap1[id].backward) &&
      tail' == if f.Some? then tail else Some(x)
    ensures Backward(heap2, PutId(order, r, x), tail')
  {
    var o := PutId(order, r, x);
    PutIndices(order, r, x);
    LevelBound(heap1, o, level);
    Behind(heap1, o, level, r + 1);
    hide LinkOk, NextAt, Linked, PutId;
    assert order[r] == HEADER <==> r == 0;
    forall i | 0 < i < |o|
      ensures heap2[o[i]].backward == if i == 1 then None else Some(o[i - 1])
    {
      if i != r + 1 && i != r + 2 { assert o[i] in heap; }
    }
  }

  lemma PutIndices(order: seq<Id>, r: nat, x: Id)
    requires r < |order|
    ensures
      var o := PutId(order, r, x);
      |o| == |order| + 1 &&
      forall i :: 0 <= i < |o| ==> o[i] == if i <= r then order[i] else if i == r + 1 then x else order[i - 1]
  {
  }

  /** On the lowest level the next node is the next member. */
  lemma Behind(heap: Heap, order: seq<Id>, level: nat, i: nat)
    requires Linked(heap, order, level) && i < |order|
    ensures order[i] in heap && heap[order[i]].forward != [] && heap[order[i]].forward[0] == At(order, i + 1)
  {
    LinkAt(heap, order, level, i, 0);
    NextIs(Heights(heap, order), i, 0, i + 1);
  }

  lemma PutKeys(heap: Heap, heap': Heap, order: seq<Id>, r: nat, x: Id, k: Key)
    requires Listed(heap, order) && SameShape(heap, heap', x) && r < |order| && heap'[x].key == Some(k)
    requires Listed(heap', PutId(order, r, x))
    ensures Keys(heap', PutId(order, r, x)) == Keys(heap, order)[..r] + [k] + Keys(heap, order)[r..]
  {
    var o := PutId(order, r, x);
    assert forall i :: 0 <= i < |o| ==> o[i] == if i <= r then order[i] else if i == r + 1 then x else order[i - 1];
  }

  /** A key put in at its rank keeps the order. */
  lemma PutSorted(ks: seq<Key>, k: Key)
    requires Sorted(ks)
    ensures var r := Rank(ks, k); Sorted(ks[..r] + [k] + ks[r..])
  {
    var r := Rank(ks, k);
    var ks' := ks[..r] + [k] + ks[r..];
    forall i, j | 0 <= i < j < |ks'|
      ensures !Less(ks'[j], ks'[i])
    {
      if j == r {
        CompareFlips(ks[i].obj, k.obj);
      } else if i == r {
        RankSplit(ks, k, j - 1);
      }
    }
  }

  lemma GoodListed(heap: Heap, order: seq<Id>, level: nat, tail: Option<Id>, length: nat)
    requires Good(heap, order, level, tail, length)
    ensures Linked(heap, order, level) && Listed(heap, order) && Sorted(Keys(heap, order)) && Even(heap)
    ensures Backward(heap, order, tail) && length == |order| - 1 && |Keys(heap, order)| == length
  {
  }

  /** On the lowest level the search stops right at the rank. */
  lemma RankIs(heap: Heap, order: seq<Id>, level: nat, update: seq<Id>, rank: seq<nat>, r: nat)
    requires Linked(heap, order, level) && Found(heap, order, level, update, rank, r) && r < |order|
    ensures |update| == |rank| == MAXLEVEL && rank[0] == r && update[0] == order[r]
  {
    LevelBound(heap, order, level);
    FoundAt(heap, order, level, update, rank, r, 0);
    assert Heights(heap, order)[r] > 0;
  }

  /** The search of `slInsert`, and the levels that the list has not had so far. */
  method Prepare(heap: Heap, ghost order: seq<Id>, level: nat, ghost tail: Option<Id>, length: nat, k: Key, n: nat)
    returns (heap': Heap, level': nat, update: seq<Id>, rank: seq<nat>)
    requires Good(heap, order, level, tail, length) && 0 < n <= MAXLEVEL
    ensures Linked(heap', order, level') && Keys(heap', order) == Keys(heap, order) && n <= level' && Even(heap')
    ensures heap'.Keys == heap.Keys && Backward(heap', order, tail) && Heights(heap', order) == Heights(heap, order)
    ensures Found(heap', order, level', update, rank, Rank(Keys(heap, order), k))
  {
    hide *;
    GoodListed(heap, order, level, tail, length);
    ghost var r := Rank(Keys(heap, order), k);
    LessSplits(Keys(heap, order), k);
    update, rank := Search(heap, order, level, (key, _) => Less(key, k), r);
    heap', level' := heap, level;
    if n > level {
      ghost var u, ra := update, rank;
      heap', update, rank := Raise(heap, order, level, n, length, update, rank, r);
      RaisedList(heap, heap', order, level, n, length);
      RaisedLinked(heap, heap', order, level, n, length);
      RaisedFound(heap, heap', order, level, n, length, u, ra, update, rank, r);
      RaisedEven(heap, heap', level, n, length);
      level' := n;
    }
  }

  lemma RaisedEven(heap: Heap, heap': Heap, level: nat, n: nat, length: nat)
    requires Even(heap) && Raised(heap, heap', level, n, length)
    ensures Even(heap') && heap'.Keys == heap.Keys
  {
  }

  lemma NewNode(heap: Heap, order: seq<Id>, level: nat, i: nat, x: Id)
    requires Linked(heap, order, level) && i < |order| && order[i] == x
    ensures x in heap && heap[x].forward != [] && (heap[x].forward[0].Some? ==> heap[x].forward[0].value in heap)
  {
    LinkAt(heap, order, level, i, 0);
  }

  lemma PutEven(heap: Heap, heap1: Heap, heap2: Heap, x: Id, n: nat)
    requires Even(heap) && SameShape(heap, heap1, x) && SameLinks(heap1, heap2) &&
      |heap1[x].forward| == n == |heap1[x].span|
    ensures Even(heap2)
  {
  }

  lemma PutGood(heap: Heap, order: seq<Id>, level: nat, tail: Option<Id>, length: nat)
    requires Linked(heap, order, level) && Listed(heap, order) && Backward(heap, order, tail) && length == |order| - 1
    requires Sorted(Keys(heap, order)) && Even(heap)
    ensures Good(heap, order, level, tail, length)
  {
  }

  lemma PutLength(order: seq<Id>, r: nat, x: Id)
    requires r < |order|
    ensures |PutId(order, r, x)| == |order| + 1 && PutId(order, r, x)[r + 1] == x
  {
  }

  method PutNode(heap: Heap, ghost order: seq<Id>, level: nat, tail: Option<Id>, length: nat, k: Key, n: nat, x: Id)
    returns (heap': Heap, level': nat, tail': Option<Id>)
    requires Good(heap, order, level, tail, length) && 0 < n <= MAXLEVEL && x !in heap
    ensures Listed(heap, order)
    ensures
      var ks := Keys(heap, order);
      var r := Rank(ks, k);
      r < |order| && Good(heap', PutId(order, r, x), level', tail', length + 1) &&
      Listed(heap', PutId(order, r, x)) && Keys(heap', PutId(order, r, x)) == ks[..r] + [k] + ks[r..] &&
      Heights(heap', PutId(order, r, x)) == Put(Heights(heap, order), r, n)
  {
    hide *;
    GoodListed(heap, order, level, tail, length);
    ghost var ks := Keys(heap, order);
    ghost var r := Rank(ks, k);
    ghost var o := PutId(order, r, x);
    var h, lv, update, rank := Prepare(heap, order, level, tail, length, k, n);
    RankIs(h, order, lv, update, rank, r);
    LevelBound(h, order, lv);
    var h1 := Splice(h, order, lv, x, n, k, update, rank, r);
    PutLinked(h, h1, order, lv, x, n, k, update, rank, r);
    SplicedShape(h, h1, x, n, k, update, rank, lv);
    LevelBound(h1, o, lv);
    PutLength(order, r, x);
    NewNode(h1, o, lv, r + 1, x);
    heap', tail' := LinkBack(h1, x, update[0], tail);
    level' := lv;
    SameLinked(h1, heap', o, lv);
    LevelBound(heap', o, lv);
    PutBackward(h, h1, heap', order, r, x, tail, tail', lv);
    PutKeys(h, h1, order, r, x, k);
    PutHeights(h, h1, order, x, n, r);
    PutSorted(ks, k);
    PutEven(h, h1, heap', x, n);
    PutGood(heap', o, level', tail', length + 1);
  }

  /** The keys less than `k` are the first ones. */
  lemma RankSplit(ks: seq<Key>, k: Key, i: nat)
    requires Sorted(ks) && i < |ks|
    ensures Less(ks[i], k) <==> i < Rank(ks, k)
  {
    hide Less, Rank;
    var r := Rank(ks, k);
    if r < i {
      assert !Less(ks[i], ks[r]) && !Less(ks[r], k);
      if Less(ks[i], k) { LessChains(ks[r], ks[i], k); }
    }
  }
}
