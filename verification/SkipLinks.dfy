/** Which node of a skip list is the next one on a level, by the heights of the nodes alone, and how that
    changes when a node is put in or taken out. Index 0 is the header. */
module SkipLinks {

  /** The first index behind `i` whose node reaches level `l`, or the number of nodes. */
  function NextAt(h: seq<nat>, i: nat, l: nat): (j: nat)
    requires i < |h|
    ensures i < j <= |h|
    ensures j < |h| ==> h[j] > l
    ensures forall k :: i < k < j ==> h[k] <= l
    decreases |h| - i
  {
    if i + 1 == |h| || h[i + 1] > l then i + 1 else NextAt(h, i + 1, l)
  }

  lemma {:induction false} NextIs(h: seq<nat>, i: nat, l: nat, j: nat)
    requires i < j <= |h|
    requires j < |h| ==> h[j] > l
    requires forall k :: i < k < j ==> h[k] <= l
    ensures NextAt(h, i, l) == j
  {
    var n := NextAt(h, i, l);
    if n < |h| { assert h[n] > l; }
    if j < |h| { assert h[j] > l; }
  }

  /** `c` is the last index up to `r` whose node reaches level `l`. */
  predicate IsPrev(h: seq<nat>, r: nat, l: nat, c: nat) {
    c <= r < |h| && h[c] > l && forall k :: c < k <= r ==> h[k] <= l
  }

  lemma PrevNext(h: seq<nat>, r: nat, l: nat, c: nat)
    requires IsPrev(h, r, l, c)
    ensures NextAt(h, c, l) > r
  {
  }

  /** A search on level `l` that has passed `c` but must not pass `r` goes on exactly if the next node is not behind
      `r`. */
  lemma StopsAt(h: seq<nat>, r: nat, l: nat, c: nat)
    requires c <= r < |h| && h[c] > l && NextAt(h, c, l) > r
    ensures IsPrev(h, r, l, c)
  {
  }

  function Put(h: seq<nat>, r: nat, x: nat): seq<nat>
    requires r < |h|
  {
    h[..r + 1] + [x] + h[r + 1..]
  }

  /** The next node after a node of height `x` is put in behind index `r`: for the new node, for the nodes
      before which it comes first, and for all others. */
  lemma NextPut(h: seq<nat>, r: nat, x: nat, l: nat, c: nat)
    requires IsPrev(h, r, l, c)
    ensures
      var h' := Put(h, r, x);
      NextAt(h', c, l) == (if l < x then r + 1 else NextAt(h, c, l) + 1) &&
      NextAt(h', r + 1, l) == NextAt(h, c, l) + 1
  {
    var h' := Put(h, r, x);
    var j := NextAt(h, c, l);
    PrevNext(h, r, l, c);
    forall k | r + 1 < k < j + 1 ensures h'[k] <= l { assert h'[k] == h[k - 1]; }
    if j < |h| { assert h'[j + 1] == h[j]; }
    NextIs(h', r + 1, l, j + 1);
    if l < x {
      NextIs(h', c, l, r + 1);
    } else {
      forall k | c < k < j + 1 ensures h'[k] <= l {
        assert h'[k] == if k <= r then h[k] else if k == r + 1 then x else h[k - 1];
      }
      NextIs(h', c, l, j + 1);
    }
  }

  lemma NextPutOther(h: seq<nat>, r: nat, x: nat, l: nat, c: nat, i: nat)
    requires IsPrev(h, r, l, c) && i < |h| && h[i] > l && i != c
    ensures
      var h' := Put(h, r, x);
      if i < c then NextAt(h', i, l) == NextAt(h, i, l) <= r
      else i > r && NextAt(h', i + 1, l) == NextAt(h, i, l) + 1
  {
    var h' := Put(h, r, x);
    var j := NextAt(h, i, l);
    if i < c {
      assert j <= c;
      NextIs(h', i, l, j);
    } else {
      forall k | i + 1 < k < j + 1 ensures h'[k] <= l { assert h'[k] == h[k - 1]; }
      if j < |h| { assert h'[j + 1] == h[j]; }
      NextIs(h', i + 1, l, j + 1);
    }
  }

  function Take(h: seq<nat>, r: nat): seq<nat>
    requires r + 1 < |h|
  {
    h[..r + 1] + h[r + 2..]
  }

  /** The next node after the node behind index `r` is taken out. */
  lemma NextTake(h: seq<nat>, r: nat, l: nat, c: nat)
    requires r + 1 < |h| && IsPrev(h, r, l, c)
    ensures NextAt(Take(h, r), c, l) ==
      (if h[r + 1] > l then NextAt(h, r + 1, l) else NextAt(h, c, l)) - 1
    ensures NextAt(h, c, l) == r + 1 <==> h[r + 1] > l
  {
    var h' := Take(h, r);
    PrevNext(h, r, l, c);
    if h[r + 1] > l { NextIs(h, c, l, r + 1); }
    var j := if h[r + 1] > l then NextAt(h, r + 1, l) else NextAt(h, c, l);
    forall k | c < k < j - 1 ensures h'[k] <= l { assert h'[k] == if k <= r then h[k] else h[k + 1]; }
    if j < |h| { assert h'[j - 1] == h[j]; }
    NextIs(h', c, l, j - 1);
  }

  lemma NextTakeOther(h: seq<nat>, r: nat, l: nat, c: nat, i: nat)
    requires r + 1 < |h| && IsPrev(h, r, l, c) && i < |h| && h[i] > l && i != c && i != r + 1
    ensures
      var h' := Take(h, r);
      if i < c then NextAt(h', i, l) == NextAt(h, i, l) <= r
      else i > r + 1 && NextAt(h', i - 1, l) == NextAt(h, i, l) - 1
  {
    var h' := Take(h, r);
    var j := NextAt(h, i, l);
    if i < c {
      assert j <= c;
      NextIs(h', i, l, j);
    } else {
      forall k | i - 1 < k < j - 1 ensures h'[k] <= l { assert h'[k] == h[k + 1]; }
      if j < |h| { assert h'[j - 1] == h[j]; }
      NextIs(h', i - 1, l, j - 1);
    }
  }
}
