/** Taking nodes out of the skip list. */
module SkipDelete {
  import opened Common
  import opened SkipLinks
  import opened SkipNodes

  function TakeId(order: seq<Id>, r: nat): seq<Id>
    requires r + 1 < |order|
  {
    order[..r + 1] + order[r + 2..]
  }

  /** Level `l` of node `id` while node `x` is cut out: the levels up to `done` have been seen to. */
  predicate CutAt(heap: Heap, heap': Heap, x: Id, update: seq<Id>, done: nat, id: Id, l: nat)
    requires id in heap && id in heap' && x in heap && Even(heap)
    requires l < |heap[id].forward| == |heap'[id].forward| == |heap'[id].span|
    requires |update| == MAXLEVEL && done <= MAXLEVEL
  {
    var a, b := heap[id], heap'[id];
    if l < done && id == update[l] then
      if a.forward[l] == Some(x) && l < |heap[x].forward| then
        b.forward[l] == heap[x].forward[l] && b.span[l] == a.span[l] + heap[x].span[l] - 1
      else b.forward[l] == a.forward[l] && b.span[l] == a.span[l] - 1
    else b.forward[l] == a.forward[l] && b.span[l] == a.span[l]
  }

  predicate SameNodes(heap: Heap, heap': Heap) {
    heap'.Keys == heap.Keys &&
    forall id <- heap ::
      heap'[id].key == heap[id].key && heap'[id].backward == heap[id].backward &&
      |heap'[id].forward| == |heap[id].forward| && |heap'[id].span| == |heap[id].span|
  }

  /** The heap when node `x` has been cut out on the levels up to `done`. */
  predicate Cut(heap: Heap, heap': Heap, x: Id, update: seq<Id>, done: nat) {
    SameNodes(heap, heap') && Even(heap) && |update| == MAXLEVEL && done <= MAXLEVEL && x in heap &&
    heap'[x] == heap[x] &&
    forall id, l :: id in heap && 0 <= l < |heap[id].forward| ==> CutAt(heap, heap', x, update, done, id, l)
  }

  /** One round of the loop of `slDeleteNode`. */
  method CutLevel(heap: Heap, ghost heap0: Heap, x: Id, update: seq<Id>, i: nat) returns (heap': Heap)
    requires Cut(heap0, heap, x, update, i) && i < MAXLEVEL
    requires update[i] in heap0 && i < |heap0[update[i]].forward| && update[i] != x
    requires heap0[update[i]].forward[i] == Some(x) ==> i < |heap0[x].forward|
    ensures Cut(heap0, heap', x, update, i + 1)
  {
    var u := update[i];
    assert CutAt(heap0, heap, x, update, i, u, i);
    var a := heap[u];
    if a.forward[i] == Some(x) {
      heap' := heap[
        u := a.(span := a.span[i := a.span[i] + heap[x].span[i] - 1], forward := a.forward[i := heap[x].forward[i]])];
    } else {
      heap' := heap[u := a.(span := a.span[i := a.span[i] - 1])];
    }
    var done := i + 1;
    forall id, l | id in heap0 && 0 <= l < |heap0[id].forward|
      ensures CutAt(heap0, heap', x, update, done, id, l)
    {
      assert CutAt(heap0, heap, x, update, i, id, l);
    }
  }

  lemma TakeIndices(order: seq<Id>, r: nat)
    requires r + 1 < |order|
    ensures
      var o := TakeId(order, r);
      |o| == |order| - 1 && forall i :: 0 <= i < |o| ==> o[i] == if i <= r then order[i] else order[i + 1]
  {
  }

  lemma TakeAt(order: seq<Id>, r: nat)
    requires r + 1 < |order|
    ensures |TakeId(order, r)| == |order| - 1
    ensures forall j: nat :: j <= r ==> At(TakeId(order, r), j) == At(order, j)
    ensures forall j: nat :: j > r ==> At(TakeId(order, r), j) == At(order, j + 1)
  {
  }

  lemma TakeHeights(heap: Heap, heap': Heap, order: seq<Id>, r: nat)
    requires Listed(heap, order) && SameNodes(heap, heap') && r + 1 < |order|
    ensures
      var o := TakeId(order, r);
      (forall i :: 0 <= i < |o| ==> o[i] in heap') && Heights(heap', o) == Take(Heights(heap, order), r)
  {
    TakeIndices(order, r);
    var o := TakeId(order, r);
    forall i | 0 <= i < |o|
      ensures o[i] in heap' && |heap'[o[i]].forward| == Take(Heights(heap, order), r)[i]
    {
    }
  }

  lemma TakeListed(heap: Heap, heap': Heap, order: seq<Id>, r: nat)
    requires Listed(heap, order) && SameNodes(heap, heap') && r + 1 < |order|
    ensures Listed(heap', TakeId(order, r))
  {
    TakeIndices(order, r);
  }

  lemma CutLink(heap: Heap, heap': Heap, x: Id, update: seq<Id>, done: nat, id: Id, l: nat)
    requires Cut(heap, heap', x, update, done) && id in heap && l < |heap[id].forward|
    ensures id in heap' && x in heap && Even(heap) && |update| == MAXLEVEL && done <= MAXLEVEL
    ensures l < |heap'[id].forward| == |heap[id].forward| && |heap'[id].span| == |heap[id].forward|
    ensures CutAt(heap, heap', x, update, done, id, l)
  {
  }

  /** The link of a node that stays, on a level of the list. */
  lemma TakeLink(heap: Heap, heap': Heap, order: seq<Id>, level: nat, x: Id, update: seq<Id>, rank: seq<nat>, r: nat,
                 i: nat, l: nat)
    requires Linked(heap, order, level) && Found(heap, order, level, update, rank, r)
    requires r + 1 < |order| && order[r + 1] == x && Cut(heap, heap', x, update, level)
    requires Listed(heap', TakeId(order, r))
    requires i < |order| && i != r + 1 && l < level && l < |heap[order[i]].forward|
    ensures LinkOk(heap', TakeId(order, r), if i <= r then i else i - 1, l)
  {
    hide Linked, Found, Stop, Heights, Listed, SameNodes, NextAt, IsPrev, Take, TakeId, Keys, Cut;
    LevelBound(heap, order, level);
    FoundAt(heap, order, level, update, rank, r, l);
    var h, o, c := Heights(heap, order), TakeId(order, r), rank[l];
    CutShape(heap, heap', x, update, level);
    TakeHeights(heap, heap', order, r);
    TakeAt(order, r);
    LinkAt(heap, order, level, i, l);
    CutLink(heap, heap', x, update, level, order[i], l);
    SameNode(heap, order, i, c, update[l]);
    var i' := if i <= r then i else i - 1;
    assert At(o, i') == At(order, i);
    if i == c {
      NextTake(h, r, l, c);
      if h[r + 1] > l {
        LinkAt(heap, order, level, r + 1, l);
      } else {
        NotNext(heap, order, r, NextAt(h, c, l), x);
      }
    } else {
      NextTakeOther(h, r, l, c, i);
    }
  }

  lemma NotNext(heap: Heap, order: seq<Id>, r: nat, j: nat, x: Id)
    requires Listed(heap, order) && r + 1 < |order| && order[r + 1] == x && j != r + 1
    ensures At(order, j) != Some(x)
  {
  }

  lemma CutShape(heap: Heap, heap': Heap, x: Id, update: seq<Id>, done: nat)
    requires Cut(heap, heap', x, update, done)
    ensures SameNodes(heap, heap') && Even(heap)
  {
  }

  lemma TakeCases(heap: Heap, heap': Heap, order: seq<Id>, level: nat, x: Id, update: seq<Id>, rank: seq<nat>, r: nat,
                  i: nat, l: nat)
    requires Linked(heap, order, level) && Found(heap, order, level, update, rank, r)
    requires r + 1 < |order| && order[r + 1] == x && Cut(heap, heap', x, update, level)
    requires Listed(heap', TakeId(order, r))
    requires i < |order| - 1 && l < level && l < |heap'[TakeId(order, r)[i]].forward|
    ensures LinkOk(heap', TakeId(order, r), i, l)
  {
    hide *;
    CutShape(heap, heap', x, update, level);
    KeptHeight(heap, heap', order, level, r, i);
    TakeLink(heap, heap', order, level, x, update, rank, r, if i <= r then i else i + 1, l);
  }

  lemma KeptHeight(heap: Heap, heap': Heap, order: seq<Id>, level: nat, r: nat, i: nat)
    requires Linked(heap, order, level) && SameNodes(heap, heap') && r + 1 < |order| && i < |order| - 1
    requires Listed(heap', TakeId(order, r))
    ensures Listed(heap, order) && |TakeId(order, r)| == |order| - 1
    ensures
      var j := if i <= r then i else i + 1;
      order[j] in heap && TakeId(order, r)[i] == order[j] &&
      |heap'[TakeId(order, r)[i]].forward| == |heap[order[j]].forward|
  {
    hide LinkOk;
    TakeIndices(order, r);
  }

  lemma TakeLinked(heap: Heap, heap': Heap, order: seq<Id>, level: nat, x: Id, update: seq<Id>, rank: seq<nat>, r: nat)
    requires Linked(heap, order, level) && Found(heap, order, level, update, rank, r)
    requires r + 1 < |order| && order[r + 1] == x && Cut(heap, heap', x, update, level)
    ensures Linked(heap', TakeId(order, r), level)
  {
    LevelBound(heap, order, level);
    CutShape(heap, heap', x, update, level);
    TakeListed(heap, heap', order, r);
    TakeIndices(order, r);
    var o := TakeId(order, r);
    forall i, l | 0 <= i < |o| && 0 <= l < level && l < |heap'[o[i]].forward|
      ensures LinkOk(heap', o, i, l)
    {
      hide *;
      TakeCases(heap, heap', order, level, x, update, rank, r, i, l);
    }
    hide LinkOk, Found, TakeId, Cut;
    forall l | level <= l < MAXLEVEL
      ensures heap'[HEADER].forward[l] == None
    {
      CutLink(heap, heap', x, update, level, HEADER, l);
    }
  }

  /** The loop of `slDeleteNode`. */
  method CutOut(heap: Heap, ghost order: seq<Id>, level: nat, x: Id, update: seq<Id>, ghost rank: seq<nat>,
                ghost r: nat)
    returns (heap': Heap)
    requires Linked(heap, order, level) && Found(heap, order, level, update, rank, r) && Even(heap)
    requires r + 1 < |order| && order[r + 1] == x
    ensures Cut(heap, heap', x, update, level)
  {
    hide *;
    LevelBound(heap, order, level);
    heap' := heap;
    var i := 0;
    StartCut(heap, order, level, x, update, rank, r);
    while i < level
      invariant 0 <= i <= level && Cut(heap, heap', x, update, i)
    {
      BeforeCut(heap, order, level, x, update, rank, r, i);
      heap' := CutLevel(heap', heap, x, update, i);
      i := i + 1;
    }
  }

  lemma StartCut(heap: Heap, order: seq<Id>, level: nat, x: Id, update: seq<Id>, rank: seq<nat>, r: nat)
    requires Linked(heap, order, level) && Found(heap, order, level, update, rank, r) && Even(heap)
    requires r + 1 < |order| && order[r + 1] == x
    ensures Cut(heap, heap, x, update, 0) && |update| == MAXLEVEL
  {
    hide LinkOk, Stop;
  }

  lemma BeforeCut(heap: Heap, order: seq<Id>, level: nat, x: Id, update: seq<Id>, rank: seq<nat>, r: nat, i: nat)
    requires Linked(heap, order, level) && Found(heap, order, level, update, rank, r)
    requires r + 1 < |order| && order[r + 1] == x && i < level
    ensures |update| == MAXLEVEL && i < MAXLEVEL && x in heap
    ensures update[i] in heap && i < |heap[update[i]].forward| && update[i] != x
    ensures heap[update[i]].forward[i] == Some(x) ==> i < |heap[x].forward|
  {
    LevelBound(heap, order, level);
    FoundAt(heap, order, level, update, rank, r, i);
    LinkAt(heap, order, level, rank[i], i);
    var j := NextAt(Heights(heap, order), rank[i], i);
    hide Linked, LinkOk, NextAt, Found, Stop;
    if j != r + 1 { NotNext(heap, order, r, j, x); }
  }

  /** The backward link behind the node, or the tail, goes around it. */
  method UnlinkBack(heap: Heap, x: Id, tail: Option<Id>) returns (heap': Heap, tail': Option<Id>)
    requires x in heap && heap[x].forward != [] && (heap[x].forward[0].Some? ==> heap[x].forward[0].value in heap)
    ensures SameLinks(heap, heap')
    ensures
      var f := heap[x].forward[0];
      (forall id <- heap :: heap'[id].backward == if f == Some(id) then heap[x].backward else heap[id].backward) &&
      tail' == if f.Some? then tail else heap[x].backward
  {
    var f := heap[x].forward[0];
    heap', tail' := heap, tail;
    if f.Some? {
      heap' := heap[f.value := heap[f.value].(backward := heap[x].backward)];
    } else {
      tail' := heap[x].backward;
    }
  }

  lemma TakeBackward(heap: Heap, heap1: Heap, heap2: Heap, order: seq<Id>, level: nat, r: nat, x: Id, tail: Option<Id>,
                     tail': Option<Id>)
    requires Linked(heap, order, level) && Listed(heap, order) && Backward(heap, order, tail) && SameNodes(heap, heap1)
    requires r + 1 < |order| && order[r + 1] == x && x in heap && heap[x].forward != [] && heap1[x] == heap[x]
    requires SameLinks(heap1, heap2) && Listed(heap2, TakeId(order, r))
    requires
      var f := heap[x].forward[0];
      (forall id <- heap :: heap2[id].backward == if f == Some(id) then heap[x].backward else heap[id].backward) &&
      tail' == if f.Some? then tail else heap[x].backward
    ensures Backward(heap2, TakeId(order, r), tail')
  {
    var o := TakeId(order, r);
    TakeIndices(order, r);
    Behind(heap, order, level, r + 1);
    hide LinkOk, NextAt, Linked, TakeId;
    forall i | 0 < i < |o|
      ensures heap2[o[i]].backward == if i == 1 then None else Some(o[i - 1])
    {
      var j := if i <= r then i else i + 1;
      assert o[i] == order[j] && order[j] in heap;
      NotSecond(heap, order, r, j);
    }
  }

  lemma NotSecond(heap: Heap, order: seq<Id>, r: nat, j: nat)
    requires Listed(heap, order) && r + 1 < |order| && j < |order|
    ensures At(order, r + 2) == Some(order[j]) <==> j == r + 2
  {
  }

  lemma TakeKeys(heap: Heap, heap': Heap, order: seq<Id>, r: nat)
    requires Listed(heap, order) && SameNodes(heap, heap') && r + 1 < |order|
    requires Listed(heap', TakeId(order, r))
    ensures r < |Keys(heap, order)|
    ensures Keys(heap', TakeId(order, r)) == Keys(heap, order)[..r] + Keys(heap, order)[r + 1..]
  {
    TakeIndices(order, r);
  }

  lemma TakeSorted(ks: seq<Key>, r: nat)
    requires Sorted(ks) && r < |ks|
    ensures Sorted(ks[..r] + ks[r + 1..])
  {
  }

  /** The loop of `slDeleteNode` that drops levels on which no node is left. */
  method Lower(heap: Heap, ghost order: seq<Id>, level: nat) returns (level': nat)
    requires Linked(heap, order, level)
    ensures level' <= level && Linked(heap, order, level')
    ensures level' > 1 ==>
      HEADER in heap && |heap[HEADER].forward| == MAXLEVEL &&
      heap[HEADER].forward[level' - 1] != None
  {
    hide Linked;
    HeaderHigh(heap, order, level);
    level' := level;
    while level' > 1 && heap[HEADER].forward[level' - 1] == None
      invariant 0 < level' <= level && Linked(heap, order, level')
    {
      LowerOne(heap, order, level');
      level' := level' - 1;
    }
  }

  lemma LowerOne(heap: Heap, order: seq<Id>, level: nat)
    requires Linked(heap, order, level) && level > 1 && Listed(heap, order) && heap[HEADER].forward[level - 1] == None
    ensures Linked(heap, order, level - 1)
  {
    LinkAt(heap, order, level, 0, level - 1);
    var j := NextAt(Heights(heap, order), 0, level - 1);
    hide LinkOk;
    forall i | 0 < i < |order|
      ensures |heap[order[i]].forward| <= level - 1
    {
      assert Heights(heap, order)[i] <= level - 1;
    }
  }

  /** The node is freed. */
  lemma FreeLinked(heap: Heap, heap': Heap, order: seq<Id>, level: nat, x: Id, tail: Option<Id>)
    requires Linked(heap, order, level) && Listed(heap, order) && Backward(heap, order, tail) && Even(heap)
    requires heap' == heap - {x} && x !in order
    ensures Linked(heap', order, level) && Listed(heap', order) && Backward(heap', order, tail) && Even(heap')
    ensures Keys(heap', order) == Keys(heap, order) && Heights(heap', order) == Heights(heap, order)
  {
    assert forall i :: 0 <= i < |order| ==> order[i] != x;
    assert Heights(heap', order) == Heights(heap, order);
    forall i, l | 0 <= i < |order| && 0 <= l < level && l < |heap'[order[i]].forward|
      ensures LinkOk(heap', order, i, l)
    {
      assert LinkOk(heap, order, i, l);
    }
  }

  lemma TakenOut(heap: Heap, order: seq<Id>, r: nat, x: Id)
    requires Listed(heap, order) && r + 1 < |order| && order[r + 1] == x
    ensures x !in TakeId(order, r) && x in heap
  {
    TakeIndices(order, r);
  }

  /** `slDeleteNode` and `slFreeNode` for the node behind the first `r` members. */
  method RemoveNode(heap: Heap, ghost order: seq<Id>, level: nat, tail: Option<Id>, length: nat, x: Id, update: seq<Id>,
                    ghost rank: seq<nat>, ghost r: nat)
    returns (heap': Heap, level': nat, tail': Option<Id>)
    requires Good(heap, order, level, tail, length) && Listed(heap, order)
    requires Found(heap, order, level, update, rank, r) && r + 1 < |order| && order[r + 1] == x
    ensures Good(heap', TakeId(order, r), level', tail', length - 1) && Listed(heap', TakeId(order, r))
    ensures r < |Keys(heap, order)|
    ensures Keys(heap', TakeId(order, r)) == Keys(heap, order)[..r] + Keys(heap, order)[r + 1..]
    ensures Heights(heap', TakeId(order, r)) == Take(Heights(heap, order), r)
    ensures heap'.Keys == heap.Keys - {x} && level' <= level
    ensures Found(heap', TakeId(order, r), level', update, rank, r)
  {
    hide *;
    GoodListed(heap, order, level, tail, length);
    ghost var o := TakeId(order, r);
    var h1 := CutOut(heap, order, level, x, update, rank, r);
    CutShape(heap, h1, x, update, level);
    TakenOut(heap, order, r, x);
    TakeLinked(heap, h1, order, level, x, update, rank, r);
    LevelBound(h1, o, level);
    TakeKeys(heap, h1, order, r);
    TakeHeights(heap, h1, order, r);
    TakeSorted(Keys(heap, order), r);
    var h2: Heap;
    NewNode(heap, order, level, r + 1, x);
    SameShape(heap, h1, x, update, level);
    h2, tail' := UnlinkBack(h1, x, tail);
    SameLinked(h1, h2, o, level);
    LevelBound(h2, o, level);
    TakeBackward(heap, h1, h2, order, level, r, x, tail, tail');
    level' := Lower(h2, o, level);
    heap' := h2 - {x};
    CutEven(heap, h1, h2, x, update, level);
    FreeLinked(h2, heap', o, level', x, tail');
    TakeFound(heap, h1, heap', order, level, level', x, update, rank, r);
    TakeIndices(order, r);
    PutGood(heap', o, level', tail', length - 1);
  }

  /** The node itself is not changed by cutting it out. */
  lemma SameShape(heap: Heap, heap': Heap, x: Id, update: seq<Id>, done: nat)
    requires Cut(heap, heap', x, update, done)
    ensures x in heap && x in heap' && heap'[x] == heap[x] && heap'.Keys == heap.Keys
  {
  }

  lemma CutEven(heap: Heap, heap1: Heap, heap2: Heap, x: Id, update: seq<Id>, done: nat)
    requires Cut(heap, heap1, x, update, done) && SameLinks(heap1, heap2)
    ensures Even(heap2) && heap2.Keys == heap.Keys
  {
  }

  /** Where the search stopped is still right. */
  lemma TakeFound(heap: Heap, heap1: Heap, heap': Heap, order: seq<Id>, level: nat, level': nat, x: Id, update: seq<Id>,
                  rank: seq<nat>, r: nat)
    requires Listed(heap, order) && Found(heap, order, level, update, rank, r) && r + 1 < |order| && level' <= level
    requires SameNodes(heap, heap1) && Listed(heap', TakeId(order, r)) && heap'.Keys == heap.Keys - {x} &&
      order[r + 1] == x
    requires forall id <- heap' :: |heap'[id].forward| == |heap1[id].forward|
    ensures Found(heap', TakeId(order, r), level', update, rank, r)
  {
    TakeIndices(order, r);
    var o := TakeId(order, r);
    hide TakeId;
    forall l | 0 <= l < level'
      ensures Stop(heap', o, l, update[l], rank[l], r)
    {
      assert Stop(heap, order, l, update[l], rank[l], r);
    }
  }
}
