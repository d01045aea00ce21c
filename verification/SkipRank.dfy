/** The rank that `slGetRank` gives: the search compares only the member where it stops, so the answer for a member
    asked for with another score depends on the heights of the nodes. */
module SkipRank {
  import opened Common
  import opened SkipNodes

  /** The condition of the search loop, besides `Less`. */
  predicate NotAfter(a: Key, b: Key) {
    a.score < b.score || (a.score == b.score && Compare(a.obj, b.obj) <= 0)
  }

  lemma NotAfterIsNotLess(a: Key, k: Key)
    ensures NotAfter(a, k) <==> !Less(k, a)
  {
    CompareFlips(k.obj, a.obj);
    CompareFlips(a.obj, k.obj);
  }

  /** How many keys are not greater than `k`. */
  function RankAfter(ks: seq<Key>, k: Key): (r: nat)
    requires Sorted(ks)
    ensures r <= |ks| && forall i :: 0 <= i < |ks| ==> (NotAfter(ks[i], k) <==> i < r)
  {
    if ks == [] || !NotAfter(ks[0], k) then
      assert forall i :: 0 < i < |ks| ==> !NotAfter(ks[i], k) by {
        forall i | 0 < i < |ks| ensures !NotAfter(ks[i], k) { AfterChains(ks[0], ks[i], k); }
      }
      0
    else
      assert forall i :: 1 <= i < |ks| ==> ks[i] == ks[1..][i - 1];
      1 + RankAfter(ks[1..], k)
  }

  lemma AfterChains(a: Key, b: Key, k: Key)
    requires !NotAfter(a, k) && !Less(b, a)
    ensures !NotAfter(b, k)
  {
    CompareFlips(b.obj, a.obj);
    CompareFlips(k.obj, a.obj);
    CompareFlips(k.obj, b.obj);
    CompareFlips(a.obj, b.obj);
    CompareFlips(a.obj, k.obj);
    if a.score == b.score == k.score && Compare(b.obj, k.obj) <= 0 { CompareChains(a.obj, b.obj, k.obj); }
  }

  /** Neither less: the same key. */
  lemma SameKey(a: Key, b: Key)
    requires !Less(a, b) && !Less(b, a)
    ensures a == b
  {
    CompareFlips(a.obj, b.obj);
    CompareFlips(b.obj, a.obj);
    CompareEqual(a.obj, b.obj);
  }

  lemma LessOrSame(a: Key, k: Key)
    requires NotAfter(a, k)
    ensures Less(a, k) || a == k
  {
    CompareEqual(a.obj, k.obj);
  }

  predicate DistinctMembers(ks: seq<Key>) { forall i, j :: 0 <= i < j < |ks| ==> ks[i].obj != ks[j].obj }

  /** Where a key that is present is the last one not greater. */
  lemma LastNotAfter(ks: seq<Key>, k: Key)
    requires Sorted(ks) && DistinctMembers(ks) && k in ks
    ensures var r := RankAfter(ks, k); r > 0 && ks[r - 1] == k
  {
    CompareEqual(k.obj, k.obj);
    var i :| 0 <= i < |ks| && ks[i] == k;
    var r := RankAfter(ks, k);
    if i < r - 1 {
      NotAfterIsNotLess(ks[r - 1], k);
      SameKey(ks[r - 1], k);
    }
  }

  /** A search that may pass the first `r` members stops on some level at the one of place `c`: it is higher
      than all members behind it. Index 0 is the header. */
  predicate Stands(h: seq<nat>, r: nat, c: nat) {
    0 < c <= r < |h| && forall j :: c < j <= r ==> h[j] < h[c]
  }

  /** The answer of `slGetRank` in a list with members `ks` and heights `h`: the first place where the search
      stops at a node with the member of `k`, or 0 if it stops at none. */
  ghost predicate Given(ks: seq<Key>, h: seq<nat>, k: Key, rank: nat)
    requires Sorted(ks) && |h| == |ks| + 1
  {
    var r := RankAfter(ks, k);
    (rank > 0 <==> exists c :: Stands(h, r, c) && ks[c - 1].obj == k.obj) &&
    (rank > 0 ==> Stands(h, r, rank) && ks[rank - 1].obj == k.obj) &&
    forall c :: 0 < c < rank && Stands(h, r, c) ==> ks[c - 1].obj != k.obj
  }

  /** What the comment above `slGetRank` promises: the place of the key, or 0 if it is not there. */
  predicate RightRank(ks: seq<Key>, k: Key, rank: nat) {
    if k in ks then 0 < rank <= |ks| && ks[rank - 1] == k else rank == 0
  }

  /** What a random choice of levels may give. */
  predicate SomeHeights(ks: seq<Key>, h: seq<nat>) {
    |h| == |ks| + 1 && h[0] == MAXLEVEL && forall i :: 0 < i < |h| ==> 0 < h[i] <= MAXLEVEL
  }

  /** The answer is right exactly if the search stops at no smaller key with the same member. */
  lemma RightExactly(ks: seq<Key>, h: seq<nat>, k: Key, rank: nat)
    requires Sorted(ks) && DistinctMembers(ks) && |h| == |ks| + 1 && Given(ks, h, k, rank)
    ensures
      var r := RankAfter(ks, k);
      RightRank(ks, k, rank) <==>
        !exists c :: Stands(h, r, c) && ks[c - 1].obj == k.obj && Less(ks[c - 1], k)
  {
    var r := RankAfter(ks, k);
    CompareEqual(k.obj, k.obj);
    if k in ks {
      LastNotAfter(ks, k);
      assert Stands(h, r, r);
    } else if rank > 0 {
      LessOrSame(ks[rank - 1], k);
    }
  }

  /** Whatever the heights are, the answer is right: exactly if no smaller key has the same member. */
  lemma RightForAllHeights(ks: seq<Key>, k: Key)
    requires Sorted(ks) && DistinctMembers(ks)
    ensures
      (forall h, rank :: SomeHeights(ks, h) && Given(ks, h, k, rank) ==> RightRank(ks, k, rank)) <==>
      forall i :: 0 <= i < |ks| && ks[i].obj == k.obj ==> !Less(ks[i], k)
  {
    if forall i :: 0 <= i < |ks| && ks[i].obj == k.obj ==> !Less(ks[i], k) {
      forall h, rank | SomeHeights(ks, h) && Given(ks, h, k, rank) ensures RightRank(ks, k, rank) {
        RightExactly(ks, h, k, rank);
      }
    } else {
      var i :| 0 <= i < |ks| && ks[i].obj == k.obj && Less(ks[i], k);
      Misled(ks, k, i);
    }
  }

  /** A list in which only the smaller key is high misleads the search. */
  lemma Misled(ks: seq<Key>, k: Key, i: nat)
    requires Sorted(ks) && DistinctMembers(ks) && i < |ks| && ks[i].obj == k.obj && Less(ks[i], k)
    ensures exists h, rank :: SomeHeights(ks, h) && Given(ks, h, k, rank) && !RightRank(ks, k, rank)
  {
    var h := seq(|ks| + 1, j => if j == 0 then MAXLEVEL else if j == i + 1 then 2 else 1);
    var r := RankAfter(ks, k);
    assert NotAfter(ks[i], k);
    assert Stands(h, r, i + 1);
    assert forall c :: Stands(h, r, c) && ks[c - 1].obj == k.obj ==> c == i + 1;
    assert SomeHeights(ks, h) && Given(ks, h, k, i + 1);
    CompareEqual(k.obj, k.obj);
  }

  /** One member `a` of score 1, asked for with score 2: the answer is place 1, though the key is not there. */
  lemma WrongRank(h: seq<nat>)
    requires SomeHeights([Key(1.0, [97])], h)
    ensures
      var ks, k := [Key(1.0, [97])], Key(2.0, [97]);
      k !in ks && Sorted(ks) && Given(ks, h, k, 1) && !Given(ks, h, k, 0)
  {
    var ks, k := [Key(1.0, [97])], Key(2.0, [97]);
    assert NotAfter(ks[0], k) && RankAfter(ks, k) == 1;
    assert Stands(h, 1, 1);
  }

  /** With a second member between the two scores the answer depends on the heights. */
  lemma ByHeights()
    ensures
      var ks, k := [Key(1.0, [97]), Key(1.5, [98])], Key(2.0, [97]);
      Sorted(ks) && Given(ks, [MAXLEVEL, 1, 1], k, 0) && Given(ks, [MAXLEVEL, 2, 1], k, 1)
  {
    var ks, k := [Key(1.0, [97]), Key(1.5, [98])], Key(2.0, [97]);
    assert NotAfter(ks[0], k) && NotAfter(ks[1], k) && RankAfter(ks, k) == 2;
    assert Stands([MAXLEVEL, 2, 1], 2, 1);
    var h := [MAXLEVEL, 1, 1];
    assert h[2] == h[1];
    assert forall c :: Stands(h, 2, c) ==> c == 2;
  }

  /** In a list with distinct members the answer for a key that is there is its place. */
  lemma GivenPresent(ks: seq<Key>, h: seq<nat>, k: Key, rank: nat)
    requires Sorted(ks) && DistinctMembers(ks) && |h| == |ks| + 1 && Given(ks, h, k, rank) && k in ks
    ensures 0 < rank <= |ks| && ks[rank - 1] == k
  {
    LastNotAfter(ks, k);
    assert Stands(h, RankAfter(ks, k), RankAfter(ks, k));
  }

  /** One level of the search: it stops at place `c`, and the levels above did not meet the member. */
  ghost predicate Unmet(ks: seq<Key>, h: seq<nat>, k: Key, r: nat, l: nat)
    requires |h| == |ks| + 1
  {
    forall c: nat :: Stands(h, r, c) && h[c] > l ==> ks[c - 1].obj != k.obj
  }

  /** The first place where the search stops at the member. */
  ghost predicate FirstMet(ks: seq<Key>, h: seq<nat>, k: Key, r: nat, c: nat)
    requires |h| == |ks| + 1
  {
    Stands(h, r, c) && ks[c - 1].obj == k.obj && forall d: nat :: d < c && Stands(h, r, d) ==> ks[d - 1].obj != k.obj
  }

  /** A level on which the search stops at place `c`. */
  lemma LevelDone(ks: seq<Key>, h: seq<nat>, k: Key, r: nat, l: nat, c: nat)
    requires |h| == |ks| + 1 && Unmet(ks, h, k, r, l + 1)
    requires c <= r < |h| && h[c] > l && forall j :: c < j <= r ==> h[j] <= l
    ensures if c > 0 && ks[c - 1].obj == k.obj then FirstMet(ks, h, k, r, c) else Unmet(ks, h, k, r, l)
  {
  }

  lemma GivenAt(ks: seq<Key>, h: seq<nat>, k: Key, rank: nat)
    requires Sorted(ks) && |h| == |ks| + 1 && FirstMet(ks, h, k, RankAfter(ks, k), rank)
    ensures Given(ks, h, k, rank) && 0 < rank <= |ks| && ks[rank - 1].obj == k.obj && !Less(k, ks[rank - 1])
    ensures k in ks && DistinctMembers(ks) ==> 0 < rank <= |ks| && ks[rank - 1] == k
  {
    NotAfterIsNotLess(ks[rank - 1], k);
    if k in ks && DistinctMembers(ks) { GivenPresent(ks, h, k, rank); }
  }

  lemma GivenNone(ks: seq<Key>, h: seq<nat>, k: Key)
    requires Sorted(ks) && |h| == |ks| + 1 && Unmet(ks, h, k, RankAfter(ks, k), 0)
    requires forall i :: 0 <= i < |h| ==> h[i] > 0
    ensures Given(ks, h, k, 0)
    ensures k in ks ==> !DistinctMembers(ks)
  {
    forall c: nat | Stands(h, RankAfter(ks, k), c) ensures ks[c - 1].obj != k.obj {
      assert h[c] > 0;
    }
    if k in ks && DistinctMembers(ks) { GivenPresent(ks, h, k, 0); }
  }
}
