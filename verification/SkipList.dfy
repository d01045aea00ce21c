/** The span-indexed skip list of lualib-src/skiplist, node links and spans updated in place,
    against one sorted sequence of members. */
module SkipList {
  import opened Common
  import opened SkipLinks
  import opened SkipNodes
  import opened SkipDelete
  import opened SkipRank

  /** How many of the first keys satisfy a test on the score: below `s`, or up to `s`. */
  function Below(ks: seq<Key>, s: real): (r: nat)
    requires Sorted(ks)
    ensures r <= |ks| && forall i :: 0 <= i < |ks| ==> (ks[i].score < s <==> i < r)
  {
    if ks == [] || !(ks[0].score < s) then
      assert forall i :: 0 < i < |ks| ==> !Less(ks[i], ks[0]);
      0
    else
      assert forall i :: 1 <= i < |ks| ==> ks[i] == ks[1..][i - 1];
      1 + Below(ks[1..], s)
  }

  function UpTo(ks: seq<Key>, s: real): (r: nat)
    requires Sorted(ks)
    ensures r <= |ks| && forall i :: 0 <= i < |ks| ==> (ks[i].score <= s <==> i < r)
  {
    if ks == [] || !(ks[0].score <= s) then
      assert forall i :: 0 < i < |ks| ==> !Less(ks[i], ks[0]);
      0
    else
      assert forall i :: 1 <= i < |ks| ==> ks[i] == ks[1..][i - 1];
      1 + UpTo(ks[1..], s)
  }

  /** A key that is present is present at its rank. */
  lemma AtRank(ks: seq<Key>, k: Key)
    requires Sorted(ks)
    ensures var r := Rank(ks, k); k in ks <==> r < |ks| && ks[r] == k
  {
    var r := Rank(ks, k);
    if k in ks {
      var i :| 0 <= i < |ks| && ks[i] == k;
      CompareEqual(k.obj, k.obj);
      RankSplit(ks, k, i);
      if r < i { SameKey(ks[r], k); }
    }
  }

  function Reversed(ks: seq<Key>): seq<Key> { seq(|ks|, i requires 0 <= i < |ks| => ks[|ks| - 1 - i]) }

  class SkipList {
    var heap: Heap
    var tail: Option<Id>
    var length: nat
    var level: nat
    ghost var order: seq<Id>

    ghost predicate Valid()
      reads this
    {
      Good(heap, order, level, tail, length)
    }

    /** The members in order. */
    ghost function Members(): seq<Key>
      requires Valid()
      reads this
    {
      Keys(heap, order)
    }

    /** The heights of the nodes, the header first. */
    ghost function Towers(): (h: seq<nat>)
      requires Valid()
      reads this
      ensures |h| == |Members()| + 1
    {
      Heights(heap, order)
    }

    /** `slCreate` */
    constructor ()
      ensures Valid() && Members() == [] && Towers() == [32]
    {
      heap := map[HEADER := Node(None, None, seq(MAXLEVEL, _ => None), seq(MAXLEVEL, _ => 0))];
      tail, length, level, order := None, 0, 1, [HEADER];
    }

    /** `slInsert`: the member goes before those that are not less. `n` is what `slRandomLevel` returns,
        `x` the address that `malloc` returns. */
    method Insert(k: Key, n: nat, x: Id)
      requires Valid() && 0 < n <= 32 && x !in heap
      modifies this
      ensures Valid()
      ensures
        var ks := old(Members());
        var r := Rank(ks, k);
        Members() == ks[..r] + [k] + ks[r..] && Towers() == Put(old(Towers()), r, n)
    {
      hide Good, Linked, Listed, Backward, Sorted, Rank, Keys, PutId;
      GoodListed(heap, order, level, tail, length);
      ghost var r := Rank(Keys(heap, order), k);
      ghost var o := PutId(order, r, x);
      heap, level, tail := PutNode(heap, order, level, tail, length, k, n, x);
      length := length + 1;
      order := o;
    }
  
    /** `slDelete` */
    method Delete(k: Key) returns (found: bool)
      requires Valid()
      modifies this
      ensures Valid()
      ensures
        var ks := old(Members());
        var r := Rank(ks, k);
        found == (k in ks) &&
        (found ==>
          r < |ks| && ks[r] == k && Members() == ks[..r] + ks[r + 1..] &&
          Towers() == Take(old(Towers()), r)) &&
        (!found ==> Members() == ks && Towers() == old(Towers()))
    {
      hide Good, Linked, Listed, Backward, Sorted, Rank, Keys, TakeId, Found, Less, Splits, Compare;
      GoodListed(heap, order, level, tail, length);
      ghost var ks := Keys(heap, order);
      ghost var r := Rank(ks, k);
      LessSplits(ks, k);
      var update, rank := Search(heap, order, level, (key, _) => Less(key, k), r);
      RankIs(heap, order, level, update, rank, r);
      Behind(heap, order, level, r);
      AtRank(ks, k);
      KeyAt(heap, order, r + 1);
      CompareEqual(k.obj, k.obj);
      var x := heap[update[0]].forward[0];
      found := false;
      if x.Some? {
        var key := heap[x.value].key.value;
        CompareEqual(key.obj, k.obj);
        if k.score == key.score && Compare(key.obj, k.obj) == 0 {
          found := true;
          ghost var o := TakeId(order, r);
          heap, level, tail := RemoveNode(heap, order, level, tail, length, x.value, update, rank, r);
          length := length - 1;
          order := o;
        }
      }
    }

    /** `slDeleteByRank`; `removed` are the members given to the callback. */
    method DeleteByRank(start: nat, end: nat) returns (removed: seq<Key>)
      requires Valid()
      modifies this
      ensures Valid()
      ensures
        var ks := old(Members());
        var r := if start == 0 then 0 else Min(start - 1, |ks|);
        var e := Max(r, Min(end, |ks|));
        removed == ks[r..e] && Members() == ks[..r] + ks[e..]
    {
      hide Good, Linked, Listed, Backward, Sorted, Keys, TakeId, Found, Less, Splits, Compare;
      GoodListed(heap, order, level, tail, length);
      ghost var ks := Keys(heap, order);
      ghost var r := if start == 0 then 0 else Min(start - 1, |ks|);
      PlaceSplits(ks, start);
      var update, rank := Search(heap, order, level, (_, j) => j < start, r);
      ghost var o;
      heap, level, tail, length, removed, o := RemoveRun(heap, order, level, tail, length, update, rank, r, end);
      order := o;
    }

    /** `slGetRank`: one-based, 0 if the search stops at no node with the member. Only the member, not the score,
        is compared where the search of a level stops. */
    method GetRank(k: Key) returns (rank: nat)
      requires Valid()
      ensures
        var ks := Members();
        Sorted(ks) && Given(ks, Towers(), k, rank) &&
        (rank > 0 ==> rank <= |ks| && ks[rank - 1].obj == k.obj && !Less(k, ks[rank - 1])) &&
        (k in ks && DistinctMembers(ks) ==> 0 < rank <= |ks| && ks[rank - 1] == k)
    {
      hide Good, Linked, Listed, Backward, Sorted, Keys, Less, Splits, Compare, Heights, DistinctMembers, NotAfter,
        Given, Unmet, RankAfter, Stands;
      GoodListed(heap, order, level, tail, length);
      ghost var ks, h := Keys(heap, order), Heights(heap, order);
      ghost var r := RankAfter(ks, k);
      HeaderHigh(heap, order, level);
      AfterSplits(ks, k);
      NoneHigher(heap, order, level, k, r);
      AllTall(heap, order);
      var x := HEADER;
      rank := 0;
      var i := level;
      while i > 0
        invariant 0 <= i <= level
        invariant rank <= r && rank < |order| == |h| && order[rank] == x
        invariant i > 0 ==> h[rank] >= i
        invariant Unmet(ks, h, k, r, i)
      {
        i := i - 1;
        x, rank := Walk(heap, order, level, (key, _) => NotAfter(key, k), r, i, x, rank);
        StopAt(heap, order, i, x, rank, r);
        StopLevel(heap, order, i, x, rank, k, r);
        KeyAt(heap, order, rank);
        if heap[x].key.Some? {
          CompareEqual(heap[x].key.value.obj, k.obj);
          if Compare(heap[x].key.value.obj, k.obj) == 0 {
            GivenAt(ks, h, k, rank);
            return;
          }
        }
      }
      GivenNone(ks, h, k);
      return 0;
    }

    /** `slGetNodeByRank`: the node at a one-based place. */
    method GetNodeByRank(rank: nat) returns (node: Option<Id>, ghost i: nat)
      requires Valid()
      ensures if 1 <= rank <= |Members()| then node == At(order, rank) && i == rank else node == None
    {
      hide Good, Linked, Listed, Backward, Sorted, Keys, Splits, Heights;
      GoodListed(heap, order, level, tail, length);
      i := rank;
      if rank == 0 || rank > length { return None, i; }
      RankSplits(Keys(heap, order), rank);
      HeaderHigh(heap, order, level);
      var x: Id, traversed: nat := HEADER, 0;
      var l := level;
      while l > 0
        invariant 0 <= l <= level && traversed <= rank
        invariant traversed < |order| == |Heights(heap, order)| && order[traversed] == x
        invariant 0 < l && Heights(heap, order)[traversed] >= l
      {
        l := l - 1;
        x, traversed := Walk(heap, order, level, (_, j) => j <= rank, rank, l, x, traversed);
        StopAt(heap, order, l, x, traversed, rank);
        if traversed == rank { return Some(x), i; }
        if l == 0 { StopLow(heap, order, x, traversed, rank); }
      }
      return None, i;
    }

    /** `slIsInRange`: whether the scores reach from at most `max` to at least `min`, with `min` up to `max`. */
    method IsInRange(min: real, max: real) returns (r: bool)
      requires Valid()
      ensures
        var ks := Members();
        Sorted(ks) && (r <==> min <= max && Below(ks, min) < |ks| && UpTo(ks, max) > 0)
    {
      hide Linked, Sorted, Keys;
      GoodListed(heap, order, level, tail, length);
      ghost var ks := Keys(heap, order);
      if min > max { return false; }
      KeyAt(heap, order, |order| - 1);
      KeyAt(heap, order, 1);
      Behind(heap, order, level, 0);
      if tail == None || heap[tail.value].key.value.score < min { return false; }
      var x := heap[HEADER].forward[0];
      if x == None || heap[x.value].key.value.score > max { return false; }
      return true;
    }

    /** `slFirstInRange`: the first node not below `min`; it may lie above `max`. */
    method FirstInRange(min: real, max: real) returns (node: Option<Id>, ghost i: nat)
      requires Valid()
      ensures
        var ks := Members();
        Sorted(ks) && if min <= max && Below(ks, min) < |ks| && UpTo(ks, max) > 0
          then i == Below(ks, min) + 1 && node == At(order, i) else node == None
    {
      i := 0;
      var some := IsInRange(min, max);
      hide Good, Linked, Listed, Backward, Sorted, Keys, Splits;
      GoodListed(heap, order, level, tail, length);
      if !some { return None, i; }
      ghost var r := Below(Keys(heap, order), min);
      BelowSplits(Keys(heap, order), min);
      var update, rank := Search(heap, order, level, (key: Key, _: nat) => key.score < min, r);
      RankIs(heap, order, level, update, rank, r);
      Behind(heap, order, level, r);
      return heap[update[0]].forward[0], r + 1;
    }

    /** `slLastInRange`: the last node up to `max`; it may lie below `min`. */
    method LastInRange(min: real, max: real) returns (node: Option<Id>, ghost i: nat)
      requires Valid()
      ensures
        var ks := Members();
        Sorted(ks) && if min <= max && Below(ks, min) < |ks| && UpTo(ks, max) > 0
          then i == UpTo(ks, max) && node == At(order, i) else node == None
    {
      i := 0;
      var some := IsInRange(min, max);
      hide Good, Linked, Listed, Backward, Sorted, Keys, Splits;
      GoodListed(heap, order, level, tail, length);
      if !some { return None, i; }
      ghost var r := UpTo(Keys(heap, order), max);
      UpToSplits(Keys(heap, order), max);
      var update, rank := Search(heap, order, level, (key: Key, _: nat) => key.score <= max, r);
      RankIs(heap, order, level, update, rank, r);
      return Some(update[0]), r;
    }

    /** `_get_rank_range`: the members from place `r1` to place `r2`, backwards if `r1` is the larger. */
    method RankRange(r1: nat, r2: nat) returns (found: seq<Key>)
      requires Valid()
      ensures
        var ks := Members();
        found == if !(1 <= r1 <= |ks|) then []
                 else if r1 <= r2 then ks[r1 - 1..Min(r2, |ks|)]
                 else Reversed(ks[Max(r2, 1) - 1..r1])
    {
      var reverse := r1 > r2;
      var n := if reverse then r1 - r2 + 1 else r2 - r1 + 1;
      ghost var i: nat;
      var node: Option<Id>;
      node, i := GetNodeByRank(r1);
      hide Good, Linked, Listed, Backward, Sorted, Keys, Collected, Reversed;
      GoodListed(heap, order, level, tail, length);
      ghost var ks := Keys(heap, order);
      found := [];
      if node == None { return; }
      NoneCollected(heap, order, node, r1, reverse);
      while node.Some? && |found| < n
        invariant Collected(heap, order, found, node, r1, reverse) && |found| <= n
        decreases n - |found|
      {
        found, node := Collect(heap, order, level, tail, length, found, node.value, r1, reverse);
      }
      AllCollected(heap, order, found, node, r1, reverse);
    }

    /** `_get_score_range`: the members with a score between the two, backwards if the first is the larger. */
    method ScoreRange(s1: real, s2: real) returns (found: seq<Key>)
      requires Valid()
      ensures
        var ks := Members();
        Sorted(ks) &&
        var a, b := Below(ks, if s1 <= s2 then s1 else s2), UpTo(ks, if s1 <= s2 then s2 else s1);
        found == if b <= a then [] else if s1 <= s2 then ks[a..b] else Reversed(ks[a..b])
    {
      var reverse := !(s1 <= s2);
      ghost var i: nat;
      var node: Option<Id>;
      if reverse { node, i := LastInRange(s2, s1); } else { node, i := FirstInRange(s1, s2); }
      if node == None { return []; }
      found := ScoreWalk(heap, order, level, tail, length, node, i, reverse, s2);
    }
  }

  /** The loop of `_get_score_range`. */
  method ScoreWalk(heap: Heap, ghost order: seq<Id>, ghost level: nat, ghost tail: Option<Id>, ghost length: nat,
                   node0: Option<Id>, ghost first: nat, reverse: bool, s: real)
    returns (found: seq<Key>)
    requires Good(heap, order, level, tail, length) && Listed(heap, order) && Sorted(Keys(heap, order))
    requires 0 < first < |order| && node0 == At(order, first)
    ensures
      var ks := Keys(heap, order);
      found == if reverse then Reversed(ks[Min(Below(ks, s), first)..first])
               else ks[first - 1..Max(first - 1, UpTo(ks, s))]
  {
    hide Good, Linked, Listed, Backward, Sorted, Keys, Collected, Reversed, Below, UpTo;
    ghost var ks := Keys(heap, order);
    ghost var stop := if reverse then Below(ks, s) else UpTo(ks, s);
    found := [];
    var node := node0;
    NoneCollected(heap, order, node, first, reverse);
    KeyOf(heap, order, found, node, first, reverse);
    while node.Some? &&
      if reverse then !(heap[node.value].key.value.score < s) else !(heap[node.value].key.value.score > s)
      invariant Collected(heap, order, found, node, first, reverse)
      invariant node.Some? ==>
        node.value in heap && 0 <= Place(first, |found|, reverse) < |ks| &&
        heap[node.value].key == Some(ks[Place(first, |found|, reverse)])
      invariant |found| <= if reverse then first else |ks| - first + 1
      invariant found != [] ==> if reverse then stop <= first - |found| else first - 1 + |found| <= stop
      decreases if reverse then first - |found| else |ks| + 1 - first - |found|
    {
      found, node := Collect(heap, order, level, tail, length, found, node.value, first, reverse);
      KeyOf(heap, order, found, node, first, reverse);
    }
    AllCollected(heap, order, found, node, first, reverse);
  }

  /** The index of the key that comes after `n` collected ones. */
  function Place(first: nat, n: nat, reverse: bool): int { if reverse then first - n - 1 else first + n - 1 }

  /** A walk that began at place `first` has collected `found` and stands at `node`. */
  predicate Collected(heap: Heap, order: seq<Id>, found: seq<Key>, node: Option<Id>, first: nat, reverse: bool)
    requires Listed(heap, order)
  {
    var ks := Keys(heap, order);
    0 < first <= |ks| &&
    if reverse then
      |found| <= first && found == Reversed(ks[first - |found|..first]) &&
      node == if |found| < first then Some(order[first - |found|]) else None
    else
      first + |found| <= |ks| + 1 && found == ks[first - 1..first - 1 + |found|] && node == At(order, first + |found|)
  }

  lemma NoneCollected(heap: Heap, order: seq<Id>, node: Option<Id>, first: nat, reverse: bool)
    requires Listed(heap, order) && 0 < first < |order| && node == At(order, first)
    ensures Collected(heap, order, [], node, first, reverse)
  {
    assert Reversed([]) == [];
  }

  /** What a walk that stops has collected. */
  lemma AllCollected(heap: Heap, order: seq<Id>, found: seq<Key>, node: Option<Id>, first: nat, reverse: bool)
    requires Listed(heap, order) && Collected(heap, order, found, node, first, reverse)
    ensures
      var ks := Keys(heap, order);
      0 < first <= |ks| &&
      (reverse ==> |found| <= first && found == Reversed(ks[first - |found|..first])) &&
      (reverse && node == None ==> |found| == first) &&
      (!reverse ==> first - 1 + |found| <= |ks| && found == ks[first - 1..first - 1 + |found|]) &&
      (!reverse && node == None ==> first - 1 + |found| == |ks|)
  {
  }

  lemma KeyOf(heap: Heap, order: seq<Id>, found: seq<Key>, node: Option<Id>, first: nat, reverse: bool)
    requires Listed(heap, order) && Collected(heap, order, found, node, first, reverse)
    ensures
      var ks := Keys(heap, order);
      |found| <= (if reverse then first else |ks| - first + 1) &&
      (node.Some? ==>
        var i := Place(first, |found|, reverse);
        node.value in heap && 0 <= i < |ks| && heap[node.value].key == Some(ks[i]))
  {
  }

  /** One round of the walks of lua-skiplist.c. */
  method Collect(heap: Heap, ghost order: seq<Id>, ghost level: nat, ghost tail: Option<Id>, ghost length: nat,
                 found: seq<Key>, x: Id, ghost first: nat, reverse: bool)
    returns (found': seq<Key>, node: Option<Id>)
    requires Good(heap, order, level, tail, length) && Listed(heap, order)
    requires Collected(heap, order, found, Some(x), first, reverse)
    ensures Collected(heap, order, found', node, first, reverse)
    ensures x in heap && heap[x].key.Some? && found' == found + [heap[x].key.value]
  {
    hide Good, Linked, Listed, Backward, Sorted, Keys, Reversed;
    GoodListed(heap, order, level, tail, length);
    ghost var i := if reverse then first - |found| else first + |found|;
    KeyAt(heap, order, i);
    Behind(heap, order, level, i);
    BackOf(heap, order, tail, i);
    if reverse { OneBack(Keys(heap, order), i, first); }
    found' := found + [heap[x].key.value];
    node := if reverse then heap[x].backward else heap[x].forward[0];
  }

  /** The loop of `slDeleteByRank`: members are removed behind the first `r` as long as their place, `traversed`,
      is not past `end`. */
  method RemoveRun(heap0: Heap, ghost order0: seq<Id>, level0: nat, tail0: Option<Id>, length0: nat, update: seq<Id>,
                   rank: seq<nat>, ghost r: nat, end: nat)
    returns (heap: Heap, level: nat, tail: Option<Id>, length: nat, removed: seq<Key>, ghost order: seq<Id>)
    requires Good(heap0, order0, level0, tail0, length0) && Listed(heap0, order0)
    requires Found(heap0, order0, level0, update, rank, r) && r < |order0|
    ensures Good(heap, order, level, tail, length) && Listed(heap, order)
    ensures
      var ks := Keys(heap0, order0);
      var e := Max(r, Min(end, |ks|));
      removed == ks[r..e] && Keys(heap, order) == ks[..r] + ks[e..]
  {
    hide Good, Linked, Listed, Backward, Sorted, Keys, TakeId, Found, Less, Splits, Compare, Even, Heights, LinkOk, Stop;
    GoodListed(heap0, order0, level0, tail0, length0);
    RankIs(heap0, order0, level0, update, rank, r);
    heap, level, tail, length, removed, order := heap0, level0, tail0, length0, [], order0;
    ghost var ks := Keys(heap, order);
    var traversed := rank[0] + 1;
    KeyAt(heap, order, 0);
    Behind(heap, order, level, r);
    var x := heap[update[0]].forward[0];
    while x.Some? && traversed <= end
      invariant Good(heap, order, level, tail, length) && Listed(heap, order) && |order| == |ks| + 1 - |removed| > r
      invariant Found(heap, order, level, update, rank, r) && x == At(order, r + 1)
      invariant traversed == r + 1 + |removed| && r + |removed| <= |ks| && (removed != [] ==> r + |removed| <= end)
      invariant removed == ks[r..r + |removed|] && Keys(heap, order) == ks[..r] + ks[r + |removed|..]
      decreases |order|
    {
      var key, next: Option<Id>;
      heap, level, tail, length, key, next, order :=
        RemoveOne(heap, order, level, tail, length, x.value, update, rank, r);
      RunStep(ks, r, |removed|, key);
      hide Min, Max;
      removed := removed + [key];
      traversed := traversed + 1;
      x := next;
    }
  }

  /** One round of that loop. */
  method RemoveOne(heap0: Heap, ghost order0: seq<Id>, level0: nat, tail0: Option<Id>, length0: nat, x: Id,
                   update: seq<Id>, ghost rank: seq<nat>, ghost r: nat)
    returns (heap: Heap, level: nat, tail: Option<Id>, length: nat, key: Key, next: Option<Id>, ghost order: seq<Id>)
    requires Good(heap0, order0, level0, tail0, length0) && Listed(heap0, order0)
    requires Found(heap0, order0, level0, update, rank, r) && r + 1 < |order0| && order0[r + 1] == x
    ensures Good(heap, order, level, tail, length) && Listed(heap, order) && |order| == |order0| - 1
    ensures Found(heap, order, level, update, rank, r) && next == At(order, r + 1)
    ensures r < |Keys(heap0, order0)| == |order0| - 1 && key == Keys(heap0, order0)[r]
    ensures Keys(heap, order) == Keys(heap0, order0)[..r] + Keys(heap0, order0)[r + 1..]
  {
    hide Good, Linked, Listed, Backward, Sorted, Keys, TakeId, Found, Less, Splits, Compare;
    GoodListed(heap0, order0, level0, tail0, length0);
    Behind(heap0, order0, level0, r + 1);
    KeyAt(heap0, order0, r + 1);
    TakeAt(order0, r);
    next := heap0[x].forward[0];
    key := heap0[x].key.value;
    heap, level, tail := RemoveNode(heap0, order0, level0, tail0, length0, x, update, rank, r);
    length := length0 - 1;
    order := TakeId(order0, r);
  }

  lemma RunStep(ks: seq<Key>, r: nat, n: nat, key: Key)
    requires r + n < |ks| && key == (ks[..r] + ks[r + n..])[r]
    ensures key == ks[r + n]
    ensures (ks[..r] + ks[r + n..])[..r] + (ks[..r] + ks[r + n..])[r + 1..] == ks[..r] + ks[r + (n + 1)..]
    ensures ks[r..r + n] + [key] == ks[r..r + (n + 1)]
  {
  }

  lemma BackOf(heap: Heap, order: seq<Id>, tail: Option<Id>, i: nat)
    requires Listed(heap, order) && Backward(heap, order, tail) && 0 < i < |order|
    ensures order[i] in heap && heap[order[i]].backward == if i == 1 then None else At(order, i - 1)
  {
  }

  lemma OneBack(ks: seq<Key>, i: nat, r: nat)
    requires 0 < i <= r <= |ks|
    ensures Reversed(ks[i..r]) + [ks[i - 1]] == Reversed(ks[i - 1..r])
  {
  }

  lemma RankSplits(ks: seq<Key>, rank: nat)
    requires rank <= |ks|
    ensures Splits(ks, (_, j) => j <= rank, rank)
  {
  }

  lemma BelowSplits(ks: seq<Key>, s: real)
    requires Sorted(ks)
    ensures Splits(ks, (key: Key, _: nat) => key.score < s, Below(ks, s))
  {
  }

  lemma UpToSplits(ks: seq<Key>, s: real)
    requires Sorted(ks)
    ensures Splits(ks, (key: Key, _: nat) => key.score <= s, UpTo(ks, s))
  {
  }

  lemma PlaceSplits(ks: seq<Key>, start: nat)
    ensures Splits(ks, (_, j) => j < start, if start == 0 then 0 else Min(start - 1, |ks|))
  {
  }

  lemma AfterSplits(ks: seq<Key>, k: Key)
    requires Sorted(ks)
    ensures Splits(ks, (key, _) => NotAfter(key, k), RankAfter(ks, k))
  {
  }

  /** No node is above the level of the list. */
  lemma NoneHigher(heap: Heap, order: seq<Id>, level: nat, k: Key, r: nat)
    requires Linked(heap, order, level) && Listed(heap, order)
    ensures Unmet(Keys(heap, order), Heights(heap, order), k, r, level)
  {
  }

  lemma AllTall(heap: Heap, order: seq<Id>)
    requires Listed(heap, order)
    ensures forall i :: 0 <= i < |order| ==> Heights(heap, order)[i] > 0
  {
  }

  /** What a level of `slGetRank` adds. */
  lemma StopLevel(heap: Heap, order: seq<Id>, l: nat, x: Id, c: nat, k: Key, r: nat)
    requires Listed(heap, order) && Stop(heap, order, l, x, c, r)
    requires Unmet(Keys(heap, order), Heights(heap, order), k, r, l + 1)
    ensures
      var ks, h := Keys(heap, order), Heights(heap, order);
      if c > 0 && ks[c - 1].obj == k.obj then FirstMet(ks, h, k, r, c) else Unmet(ks, h, k, r, l)
  {
    LevelDone(Keys(heap, order), Heights(heap, order), k, r, l, c);
  }

  /** On the lowest level the search passes every member it may. */
  lemma StopLow(heap: Heap, order: seq<Id>, x: Id, c: nat, r: nat)
    requires Listed(heap, order) && Stop(heap, order, 0, x, c, r)
    ensures c == r
  {
    assert Heights(heap, order)[r] > 0;
  }

  /** The key of the node at index `i`. */
  lemma KeyAt(heap: Heap, order: seq<Id>, i: nat)
    requires Listed(heap, order)
    ensures |Keys(heap, order)| == |order| - 1
    ensures 0 < i < |order| ==> order[i] in heap && heap[order[i]].key == Some(Keys(heap, order)[i - 1])
    ensures |order| > 0 && order[0] == HEADER && HEADER in heap && heap[HEADER].key == None
  {
  }
}
