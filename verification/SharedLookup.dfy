/** Building, reading and walking the tables of lua-sharedata.c. */
module SharedLookup {
  import opened Common
  import opened SharedTable

  /** What the source table has for a key. */
  function Lookup(ps: seq<Pair>, k: Key): Option<Value> {
    if ps == [] then None
    else if ps[|ps| - 1].key == k then Some(ps[|ps| - 1].value)
    else Lookup(ps[..|ps| - 1], k)
  }

  lemma {:induction false} LookupIs(ps: seq<Pair>, i: nat)
    requires Distinct(ps) && i < |ps|
    ensures Lookup(ps, ps[i].key) == Some(ps[i].value)
  {
    if i < |ps| - 1 { LookupIs(ps[..|ps| - 1], i); }
  }

  lemma {:induction false} LookupNone(ps: seq<Pair>, k: Key)
    requires forall i :: 0 <= i < |ps| ==> ps[i].key != k
    ensures Lookup(ps, k) == None
  {
    if ps != [] { LookupNone(ps[..|ps| - 1], k); }
  }

  /** The keys of the array part from index `i` on. */
  function ArrayKeys(arr: seq<Option<Value>>, i: nat): seq<Key>
    requires i <= |arr|
    decreases |arr| - i
  {
    if i == |arr| then [] else (if arr[i].Some? then [Int(i + 1)] else []) + ArrayKeys(arr, i + 1)
  }

  lemma ArrayKeysStep(arr: seq<Option<Value>>, i: nat)
    requires i < |arr|
    ensures ArrayKeys(arr, i) == if arr[i].Some? then [Int(i + 1)] + ArrayKeys(arr, i + 1) else ArrayKeys(arr, i + 1)
  {
  }

  /** Behind an array key come the array keys behind it. */
  lemma {:induction false} ArrayKeysAre(arr: seq<Option<Value>>, i: nat, p: nat)
    requires i <= |arr| && p < |ArrayKeys(arr, i)|
    ensures
      var k := ArrayKeys(arr, i)[p];
      k.Int? && i < k.i <= |arr| && arr[k.i - 1].Some? && ArrayKeys(arr, i)[p + 1..] == ArrayKeys(arr, k.i)
    decreases |arr| - i
  {
    ArrayKeysStep(arr, i);
    hide ArrayKeys;
    var ks, rest := ArrayKeys(arr, i), ArrayKeys(arr, i + 1);
    if !arr[i].Some? {
      ArrayKeysAre(arr, i + 1, p);
    } else if p > 0 {
      ArrayKeysAre(arr, i + 1, p - 1);
      assert ks[p + 1..] == rest[p..];
    } else {
      assert ks[1..] == rest;
    }
  }

  lemma {:induction false} ArrayKeysAll(arr: seq<Option<Value>>, i: nat, j: nat)
    requires i <= j < |arr| && arr[j].Some?
    ensures Int(j + 1) in ArrayKeys(arr, i)
    decreases |arr| - i
  {
    ArrayKeysStep(arr, i);
    hide ArrayKeys;
    if i < j { ArrayKeysAll(arr, i + 1, j); }
  }

  function HashKeys(hash: seq<Node>): (r: seq<Key>)
    ensures |r| == |hash| && forall s :: 0 <= s < |r| ==> r[s] == hash[s].key
  {
    seq(|hash|, s requires 0 <= s < |hash| => hash[s].key)
  }

  /** A finished table: what the two passes leave. */
  ghost predicate Built(arr: seq<Option<Value>>, hash: seq<Node>, ps: seq<Pair>, chains: Chains) {
    Distinct(ps) && ArrayHolds(arr, ps, |ps|) && |hash| == |HashPairs(ps, |arr|)| &&
    (|hash| > 0 ==> SecondPass(hash, HashPairs(ps, |arr|), chains, ps, |ps|, |arr|))
  }

  /** Where a key is, or that it is nowhere. */
  predicate FoundAt(hash: seq<Node>, k: Key, r: int) {
    if 0 <= r < |hash| then hash[r].value.Some? && hash[r].key == k else r == -1 && !Placed(hash, k)
  }

  /** A key is on the chain of its main position, which begins there. */
  lemma OnChain(hash: seq<Node>, hps: seq<Pair>, chains: Chains, k: Key, s: nat)
    requires Chained(hash, hps, chains) && s < |hash| && hash[s].value.Some? && hash[s].key == k
    ensures
      var m := Main(k, |hash|);
      s in chains[m] && chains[m] != [] && chains[m][0] == m && hash[s].keyhash == Hash(k) &&
      (hash[m].nocolliding ==> s == m)
  {
    var m := Main(k, |hash|);
    var c := chains[m];
    assert ChainOk(hash, hps, c, m);
    FirstLink(hash, hps, c, m);
    ChainMember(hash, hps, c, m, s);
    assert LinkOk(hash, hps, c, m, 0);
    var i :| 0 <= i < |c| && c[i] == s;
  }

  lemma NextOnChain(hash: seq<Node>, hps: seq<Pair>, chains: Chains, q: nat, i: nat)
    requires Chained(hash, hps, chains) && q < |hash| && i < |chains[q]|
    ensures
      var c := chains[q];
      c[i] < |hash| && hash[c[i]].value.Some? && hash[c[i]].keyhash == Hash(hash[c[i]].key) &&
      Main(hash[c[i]].key, |hash|) == q && hash[c[i]].next == (if i + 1 < |c| then c[i + 1] else -1)
  {
    assert LinkOk(hash, hps, chains[q], q, i);
  }

  /** Every slot is on a chain. */
  lemma SlotOnChain(hash: seq<Node>, hps: seq<Pair>, chains: Chains, s: nat)
    requires Chained(hash, hps, chains) && s < |hash| && hash[s].value.Some?
    ensures s in chains[Main(hash[s].key, |hash|)] && hash[s].keyhash == Hash(hash[s].key)
  {
    OnChain(hash, hps, chains, hash[s].key, s);
  }

  /** If the key has a slot, the walk for it starts at the beginning of a chain. */
  lemma StartsChain(hash: seq<Node>, hps: seq<Pair>, chains: Chains, k: Key, s: nat, q: nat, i0: nat)
    requires Chained(hash, hps, chains) && s < |hash| && hash[s].value.Some? && hash[s].key == k
    requires q < |hash| && i0 < |chains[q]| && chains[q][i0] == Main(k, |hash|)
    ensures q == Main(k, |hash|) && i0 == 0 && s in chains[q]
  {
    OnChain(hash, hps, chains, k, s);
    NextOnChain(hash, hps, chains, q, i0);
    NextOnChain(hash, hps, chains, Main(k, |hash|), 0);
    assert LinkOk(hash, hps, chains[q], q, i0);
  }

  /** What the walk from the main position has not met when the chain ends is nowhere. */
  lemma Missed(hash: seq<Node>, hps: seq<Pair>, chains: Chains, k: Key, q: nat, i0: nat)
    requires Chained(hash, hps, chains) && q < |hash| && i0 < |chains[q]|
    requires chains[q][i0] == Main(k, |hash|)
    requires forall j :: i0 <= j < |chains[q]| ==> chains[q][j] < |hash| && hash[chains[q][j]].key != k
    ensures !Placed(hash, k)
  {
    hide Chained, Main, Hash;
    forall s | 0 <= s < |hash| && hash[s].value.Some?
      ensures hash[s].key != k
    {
      if hash[s].key == k { StartsChain(hash, hps, chains, k, s, q, i0); }
    }
  }

  /** `lookup_key`: the slot of the key, or -1. */
  method LookupKey(hash: seq<Node>, k: Key, ghost hps: seq<Pair>, ghost chains: Chains) returns (r: int)
    requires |hash| > 0 ==> Chained(hash, hps, chains) && forall s :: 0 <= s < |hash| ==> hash[s].value.Some?
    ensures FoundAt(hash, k, r)
  {
    if |hash| == 0 { return -1; }
    var m := Main(k, |hash|);
    var keyhash := Hash(k);
    SlotOnChain(hash, hps, chains, m);
    if keyhash != hash[m].keyhash && hash[m].nocolliding {
      Alone(hash, hps, chains, k);
      return -1;
    }
    ghost var q := Main(hash[m].key, |hash|);
    ghost var i0 :| 0 <= i0 < |chains[q]| && chains[q][i0] == m;
    ghost var i := i0;
    var n := m;
    hide Hash, Main, Chained;
    while true
      invariant i0 <= i < |chains[q]| && chains[q][i] == n < |hash|
      invariant forall j :: i0 <= j < i ==> chains[q][j] < |hash| && hash[chains[q][j]].key != k
      decreases |chains[q]| - i
    {
      NextOnChain(hash, hps, chains, q, i);
      if keyhash == hash[n].keyhash && hash[n].key == k { return n; }
      i := i + 1;
      if hash[n].next < 0 {
        Missed(hash, hps, chains, k, q, i0);
        return -1;
      }
      n := hash[n].next;
      NextOnChain(hash, hps, chains, q, i);
    }
  }

  /** A main position without a chain answers for itself alone. */
  lemma Alone(hash: seq<Node>, hps: seq<Pair>, chains: Chains, k: Key)
    requires Chained(hash, hps, chains)
    requires
      var m := Main(k, |hash|);
      hash[m].nocolliding && Hash(k) != hash[m].keyhash
    ensures !Placed(hash, k)
  {
    hide Chained, Main, Hash;
    forall s | 0 <= s < |hash| && hash[s].value.Some?
      ensures hash[s].key != k
    {
      if hash[s].key == k { OnChain(hash, hps, chains, k, s); }
    }
  }

  /** The keys of a table in the order in which they are walked. */
  function AllKeys(arr: seq<Option<Value>>, hash: seq<Node>): seq<Key> { ArrayKeys(arr, 0) + HashKeys(hash) }

  lemma BuiltFull(arr: seq<Option<Value>>, hash: seq<Node>, ps: seq<Pair>, chains: Chains)
    requires Built(arr, hash, ps, chains)
    ensures forall s :: 0 <= s < |hash| ==> hash[s].value.Some?
    ensures |hash| > 0 ==> Chained(hash, HashPairs(ps, |arr|), chains)
  {
    var hps := HashPairs(ps, |arr|);
    if |hash| > 0 {
      HashPairsAre(ps, |arr|);
      HashPairsDistinct(ps, |arr|);
      forall i | 0 <= i < |hps|
        ensures Placed(hash, hps[i].key)
      {
        assert hps[i] in hps;
        var j :| 0 <= j < |ps| && ps[j] == hps[i];
        assert !InArray(ps[j].key, |arr|);
      }
      CompletelyFull(hash, hps);
    }
  }

  /** What a slot of a finished table holds is what the source table has for its key. */
  lemma SlotValue(arr: seq<Option<Value>>, hash: seq<Node>, ps: seq<Pair>, chains: Chains, s: nat)
    requires Built(arr, hash, ps, chains) && s < |hash|
    ensures Lookup(ps, hash[s].key) == hash[s].value && hash[s].value.Some? && !InArray(hash[s].key, |arr|)
  {
    BuiltFull(arr, hash, ps, chains);
    var hps := HashPairs(ps, |arr|);
    var q := Main(hash[s].key, |hash|);
    ChainMember(hash, hps, chains[q], q, s);
    HashPairsAre(ps, |arr|);
    var p := Pair(hash[s].key, hash[s].value.value);
    var j :| 0 <= j < |ps| && ps[j] == p;
    LookupIs(ps, j);
  }

  lemma NotPlaced(arr: seq<Option<Value>>, hash: seq<Node>, ps: seq<Pair>, chains: Chains, k: Key)
    requires Built(arr, hash, ps, chains) && !Placed(hash, k) && !InArray(k, |arr|)
    ensures Lookup(ps, k) == None
  {
    if |hash| == 0 { HashPairsAre(ps, |arr|); }
    forall i | 0 <= i < |ps|
      ensures ps[i].key != k
    {
      assert ps[i] in ps;
    }
    LookupNone(ps, k);
  }

  lemma ArrayValue(arr: seq<Option<Value>>, ps: seq<Pair>, k: Key)
    requires Distinct(ps) && ArrayHolds(arr, ps, |ps|) && InArray(k, |arr|)
    ensures Lookup(ps, k) == arr[k.i - 1]
  {
    if j :| 0 <= j < |ps| && ps[j].key == k {
      LookupIs(ps, j);
    } else {
      LookupNone(ps, k);
    }
  }

  /** `next` comes after `k`, wherever `k` is. */
  predicate NextIn(all: seq<Key>, k: Key, next: Option<Key>) {
    forall p :: 0 <= p < |all| && all[p] == k ==> next == if p + 1 < |all| then Some(all[p + 1]) else None
  }

  class Table {
    const arr: array<Option<Value>>
    const hash: array<Node>
    ghost const pairs: seq<Pair>
    ghost const chains: Chains

    ghost predicate Valid()
      reads arr, hash
    {
      Built(arr[..], hash[..], pairs, chains) && forall p <- pairs :: IsKey(p.key)
    }

    /** `convtable`, for the pairs of a source table in the order in which `lua_next` gives them; `sizearray`
        is what `lua_rawlen` says. */
    constructor (ps: seq<Pair>, sizearray: nat)
      requires Distinct(ps) && forall p <- ps :: IsKey(p.key)
      ensures Valid() && pairs == ps && fresh(arr) && fresh(hash) && arr.Length == sizearray
      ensures hash.Length == |HashPairs(ps, sizearray)|
    {
      var a := new Option<Value>[sizearray](_ => None);
      var n := CountSize(ps, sizearray);
      var h := new Node[n](_ => Node(Int(0), None, -1, 0, false));
      ghost var c: Chains := [];
      if n > 0 {
        c := FillNoColliding(a, h, ps);
        SecondStart(h[..], c, ps, sizearray);
        c := FillColliding(h, ps, sizearray, c);
      } else {
        FillArray(a, ps);
      }
      arr, hash, pairs, chains := a, h, ps, c;
    }

    /** `lindexconf`: what the source table has for the key, for every key. */
    method Index(k: Key) returns (v: Option<Value>)
      requires Valid() && IsKey(k)
      ensures v == Lookup(pairs, k)
    {
      InArrayIs(k, arr.Length);
      if k.Int? && 0 < k.i <= arr.Length {
        ArrayValue(arr[..], pairs, k);
        return arr[k.i - 1];
      }
      BuiltFull(arr[..], hash[..], pairs, chains);
      var r := LookupKey(hash[..], k, HashPairs(pairs, arr.Length), chains);
      if r >= 0 {
        SlotValue(arr[..], hash[..], pairs, chains, r);
        return hash[r].value;
      }
      NotPlaced(arr[..], hash[..], pairs, chains, k);
      return None;
    }

    /** The loops of `lnextkey` over the array part, then the first slot of the hash part. */
    method FirstFrom(i0: nat) returns (next: Option<Key>)
      requires i0 <= arr.Length
      ensures
        var rest := ArrayKeys(arr[..], i0) + HashKeys(hash[..]);
        next == if rest == [] then None else Some(rest[0])
    {
      var i := i0;
      while i < arr.Length
        invariant i0 <= i <= arr.Length && ArrayKeys(arr[..], i0) == ArrayKeys(arr[..], i)
      {
        if arr[i].Some? { return Some(Int(i + 1)); }
        i := i + 1;
      }
      if hash.Length > 0 { return Some(hash[0].key); }
      return None;
    }

    /** `lnextkey`: with no key the first one, with the key at place `p` the one at place `p + 1`. */
    method NextKey(k: Option<Key>) returns (next: Option<Key>)
      requires Valid() && (k.Some? ==> IsKey(k.value))
      ensures
        var all := AllKeys(arr[..], hash[..]);
        if k == None then next == if all == [] then None else Some(all[0]) else NextIn(all, k.value, next)
    {
      if k == None {
        next := FirstFrom(0);
        return;
      }
      hide Built, AllKeys, ArrayKeys, HashKeys, NextIn;
      var key := k.value;
      InArrayIs(key, arr.Length);
      if key.Int? && 0 < key.i <= arr.Length {
        next := FirstFrom(key.i);
        ArrayNext(arr[..], hash[..], pairs, chains, key, next);
        return;
      }
      BuiltFull(arr[..], hash[..], pairs, chains);
      var r := LookupKey(hash[..], key, HashPairs(pairs, arr.Length), chains);
      next := if r >= 0 && r + 1 < hash.Length then Some(hash[r + 1].key) else None;
      HashNext(arr[..], hash[..], pairs, chains, key, r, next);
    }

    /** The `pairs` loop over a shared table, by `lnextkey` and `lindexconf`: every pair of the source table once. */
    method Walk() returns (found: seq<Pair>)
      requires Valid()
      ensures
        var all := AllKeys(arr[..], hash[..]);
        |found| == |all| && forall i :: 0 <= i < |all| ==> found[i].key == all[i]
      ensures multiset(found) == multiset(pairs)
    {
      hide Built, AllKeys, Lookup, NextIn, Distinct, InArray, ArrayKeys, HashKeys;
      ghost var all := AllKeys(arr[..], hash[..]);
      WalkKeys(arr[..], hash[..], pairs, chains);
      found := [];
      var k := NextKey(None);
      while k.Some?
        invariant |found| <= |all| && k == if |found| < |all| then Some(all[|found|]) else None
        invariant forall i :: 0 <= i < |found| ==>
          found[i].key == all[i] && Lookup(pairs, all[i]) == Some(found[i].value)
        decreases |all| - |found|
      {
        ghost var p := |found|;
        assert all[p] in all;
        var v := Index(k.value);
        var next := NextKey(k);
        NextAfter(all, p, next);
        found := found + [Pair(k.value, v.value)];
        k := next;
      }
      AllFound(found, all, pairs);
    }
  }

  lemma NextAfter(all: seq<Key>, p: nat, next: Option<Key>)
    requires p < |all| && NextIn(all, all[p], next)
    ensures next == if p + 1 < |all| then Some(all[p + 1]) else None
  {
  }

  lemma Apart(found: seq<Pair>, all: seq<Key>)
    requires |found| == |all| && forall p, q :: 0 <= p < q < |all| ==> all[p] != all[q]
    requires forall i :: 0 <= i < |found| ==> found[i].key == all[i]
    ensures Distinct(found)
  {
  }

  lemma AllFound(found: seq<Pair>, all: seq<Key>, ps: seq<Pair>)
    requires Distinct(ps) && |found| == |all| && forall p, q :: 0 <= p < q < |all| ==> all[p] != all[q]
    requires forall i :: 0 <= i < |found| ==> found[i].key == all[i] && Lookup(ps, all[i]) == Some(found[i].value)
    requires forall j :: 0 <= j < |ps| ==> ps[j].key in all
    ensures multiset(found) == multiset(ps)
  {
    hide Lookup, Distinct;
    Apart(found, all);
    forall j | 0 <= j < |ps| ensures exists i :: 0 <= i < |found| && found[i].key == ps[j].key {
      var k := ps[j].key;
      assert k in all;
      var i :| 0 <= i < |all| && all[i] == k;
      assert found[i].key == ps[j].key;
    }
    SamePairs(found, ps);
  }

  /** No pair comes twice. */
  lemma {:induction false} Once(ps: seq<Pair>, x: Pair)
    requires Distinct(ps)
    ensures multiset(ps)[x] == if x in ps then 1 else 0
  {
    if ps != [] {
      var n := |ps| - 1;
      assert ps == ps[..n] + [ps[n]];
      Once(ps[..n], x);
    }
  }

  /** Pairs with all the keys of a table, each once and with its value, are the pairs of the table. */
  lemma SamePairs(found: seq<Pair>, ps: seq<Pair>)
    requires Distinct(found) && Distinct(ps)
    requires forall i :: 0 <= i < |found| ==> Lookup(ps, found[i].key) == Some(found[i].value)
    requires forall j :: 0 <= j < |ps| ==> exists i :: 0 <= i < |found| && found[i].key == ps[j].key
    ensures multiset(found) == multiset(ps)
  {
    forall x: Pair
      ensures multiset(found)[x] == multiset(ps)[x]
    {
      Once(found, x);
      Once(ps, x);
      if x in found { LookupSome(ps, x.key); }
      if j :| 0 <= j < |ps| && ps[j] == x {
        LookupIs(ps, j);
        var i :| 0 <= i < |found| && found[i].key == ps[j].key;
        assert found[i] == x;
      }
    }
  }

  lemma ArrayNext(arr: seq<Option<Value>>, hash: seq<Node>, ps: seq<Pair>, chains: Chains, k: Key, next: Option<Key>)
    requires Built(arr, hash, ps, chains) && InArray(k, |arr|)
    requires
      var rest := ArrayKeys(arr, k.i) + HashKeys(hash);
      next == if rest == [] then None else Some(rest[0])
    ensures NextIn(AllKeys(arr, hash), k, next)
  {
    hide Built, AllKeys, ArrayKeys, HashKeys;
    var all := AllKeys(arr, hash);
    forall p | 0 <= p < |all| && all[p] == k
      ensures next == if p + 1 < |all| then Some(all[p + 1]) else None
    {
      ArrayPlace(arr, hash, ps, chains, p);
      Follows(all, p);
    }
    IsNext(all, k, next);
  }

  lemma IsNext(all: seq<Key>, k: Key, next: Option<Key>)
    requires forall p :: 0 <= p < |all| && all[p] == k ==> next == if p + 1 < |all| then Some(all[p + 1]) else None
    ensures NextIn(all, k, next)
  {
  }

  lemma HashNext(arr: seq<Option<Value>>, hash: seq<Node>, ps: seq<Pair>, chains: Chains, k: Key, r: int,
                 next: Option<Key>)
    requires Built(arr, hash, ps, chains) && !InArray(k, |arr|) && FoundAt(hash, k, r)
    requires next == if r >= 0 && r + 1 < |hash| then Some(hash[r + 1].key) else None
    ensures NextIn(AllKeys(arr, hash), k, next)
  {
    hide Built, AllKeys, ArrayKeys, HashKeys;
    var all := AllKeys(arr, hash);
    forall p | 0 <= p < |all| && all[p] == k
      ensures next == if p + 1 < |all| then Some(all[p + 1]) else None
    {
      HashPlace(arr, hash, ps, chains, p, r);
      if r < |hash| { HashFollows(arr, hash, r); }
    }
    IsNext(all, k, next);
  }

  lemma Follows(all: seq<Key>, p: nat)
    requires p < |all|
    ensures all[p + 1..] == [] <==> p + 1 == |all|
    ensures p + 1 < |all| ==> all[p + 1..][0] == all[p + 1]
  {
  }

  lemma HashFollows(arr: seq<Option<Value>>, hash: seq<Node>, r: nat)
    requires r < |hash|
    ensures |AllKeys(arr, hash)| == |ArrayKeys(arr, 0)| + |hash|
    ensures r + 1 < |hash| ==> AllKeys(arr, hash)[|ArrayKeys(arr, 0)| + r + 1] == hash[r + 1].key
  {
  }

  /** The branch of `convtable` for a table without a hash part. */
  method FillArray(a: array<Option<Value>>, ps: seq<Pair>)
    requires Distinct(ps) && HashPairs(ps, a.Length) == [] && forall k :: 0 <= k < a.Length ==> a[k] == None
    modifies a
    ensures ArrayHolds(a[..], ps, |ps|)
  {
    var i := 1;
    while i <= a.Length
      invariant 1 <= i <= a.Length + 1
      invariant forall k :: 0 <= k < i - 1 ==> a[k] == Lookup(ps, Int(k + 1))
    {
      a[i - 1] := Lookup(ps, Int(i));
      i := i + 1;
    }
    forall j | 0 <= j < |ps| && InArray(ps[j].key, a.Length)
      ensures a[ps[j].key.i - 1] == Some(ps[j].value)
    {
      LookupIs(ps, j);
    }
    forall k | 0 <= k < a.Length && a[k].Some?
      ensures exists j :: 0 <= j < |ps| && ps[j] == Pair(Int(k + 1), a[k].value)
    {
      LookupSome(ps, Int(k + 1));
    }
  }

  lemma {:induction false} LookupSome(ps: seq<Pair>, k: Key)
    requires Lookup(ps, k).Some?
    ensures exists j :: 0 <= j < |ps| && ps[j] == Pair(k, Lookup(ps, k).value)
  {
    if ps[|ps| - 1].key == k {
      assert ps[|ps| - 1] == Pair(k, Lookup(ps, k).value);
    } else {
      LookupSome(ps[..|ps| - 1], k);
      var j :| 0 <= j < |ps| - 1 && ps[..|ps| - 1][j] == Pair(k, Lookup(ps, k).value);
      assert ps[j] == ps[..|ps| - 1][j];
    }
  }

  /** What follows an array key in the walk. */
  lemma ArrayPlace(arr: seq<Option<Value>>, hash: seq<Node>, ps: seq<Pair>, chains: Chains, p: nat)
    requires Built(arr, hash, ps, chains) && p < |AllKeys(arr, hash)| && InArray(AllKeys(arr, hash)[p], |arr|)
    ensures
      var all := AllKeys(arr, hash);
      all[p + 1..] == ArrayKeys(arr, all[p].i) + HashKeys(hash)
  {
    var ks := ArrayKeys(arr, 0);
    if p < |ks| {
      ArrayKeysAre(arr, 0, p);
    } else {
      SlotValue(arr, hash, ps, chains, p - |ks|);
    }
  }

  /** A key of the hash part is in the walk where its slot is. */
  lemma HashPlace(arr: seq<Option<Value>>, hash: seq<Node>, ps: seq<Pair>, chains: Chains, p: nat, r: int)
    requires Built(arr, hash, ps, chains) && p < |AllKeys(arr, hash)|
    requires !InArray(AllKeys(arr, hash)[p], |arr|) && FoundAt(hash, AllKeys(arr, hash)[p], r)
    ensures r >= 0 && p == |ArrayKeys(arr, 0)| + r
  {
    var ks := ArrayKeys(arr, 0);
    BuiltFull(arr, hash, ps, chains);
    if p < |ks| {
      ArrayKeysAre(arr, 0, p);
    } else {
      var s := p - |ks|;
      assert hash[s].value.Some? && hash[s].key == AllKeys(arr, hash)[p];
      assert Placed(hash, AllKeys(arr, hash)[p]);
      DistinctSlots(hash, HashPairs(ps, |arr|), chains, s, r);
    }
  }

  lemma DistinctSlots(hash: seq<Node>, hps: seq<Pair>, chains: Chains, s: nat, t: nat)
    requires Chained(hash, hps, chains) && s < |hash| && t < |hash| && hash[s].value.Some? && hash[t].value.Some?
    requires hash[s].key == hash[t].key
    ensures s == t
  {
  }

  lemma SlotsDiffer(arr: seq<Option<Value>>, hash: seq<Node>, ps: seq<Pair>, chains: Chains, s: nat, t: nat)
    requires Built(arr, hash, ps, chains) && s < t < |hash|
    ensures hash[s].key != hash[t].key
  {
    BuiltFull(arr, hash, ps, chains);
  }

  lemma WalkKeys(arr: seq<Option<Value>>, hash: seq<Node>, ps: seq<Pair>, chains: Chains)
    requires Built(arr, hash, ps, chains) && forall p <- ps :: IsKey(p.key)
    ensures
      var all := AllKeys(arr, hash);
      (forall k <- all :: IsKey(k) && Lookup(ps, k).Some?) && (forall j :: 0 <= j < |ps| ==> ps[j].key in all) &&
      Distinct(ps) && forall p, q :: 0 <= p < q < |all| ==> all[p] != all[q]
  {
    hide AllKeys, Lookup;
    WalkComplete(arr, hash, ps, chains);
    var all := AllKeys(arr, hash);
    forall k | k in all ensures IsKey(k) { LookupSome(ps, k); }
    forall j | 0 <= j < |ps| ensures ps[j].key in all { LookupIs(ps, j); }
  }

  /** The walk visits every key of the source table, no other, and none twice. */
  lemma WalkComplete(arr: seq<Option<Value>>, hash: seq<Node>, ps: seq<Pair>, chains: Chains)
    requires Built(arr, hash, ps, chains)
    ensures
      var all := AllKeys(arr, hash);
      (forall k :: k in all <==> Lookup(ps, k).Some?) && forall p, q :: 0 <= p < q < |all| ==> all[p] != all[q]
  {
    var all, ks := AllKeys(arr, hash), ArrayKeys(arr, 0);
    forall k
      ensures k in all <==> Lookup(ps, k).Some?
    {
      KeyWalked(arr, hash, ps, chains, k);
    }
    forall p, q | 0 <= p < q < |all|
      ensures all[p] != all[q]
    {
      if p < |ks| { ArrayKeysAre(arr, 0, p); ArrayPlaces(arr, hash, ps, chains, p, q); }
      else {
        SlotsDiffer(arr, hash, ps, chains, p - |ks|, q - |ks|);
      }
    }
  }

  lemma KeyWalked(arr: seq<Option<Value>>, hash: seq<Node>, ps: seq<Pair>, chains: Chains, k: Key)
    requires Built(arr, hash, ps, chains)
    ensures k in AllKeys(arr, hash) <==> Lookup(ps, k).Some?
  {
    hide *;
    InAll(arr, hash, k);
    if InArray(k, |arr|) {
      NoSlotFor(arr, hash, ps, chains, k);
      ArrayKeyWalked(arr, ps, hash, chains, k);
    } else {
      NoArrayKey(arr, k);
      HashKeyWalked(arr, hash, ps, chains, k);
    }
  }

  lemma InAll(arr: seq<Option<Value>>, hash: seq<Node>, k: Key)
    ensures k in AllKeys(arr, hash) <==> k in ArrayKeys(arr, 0) || k in HashKeys(hash)
  {
  }

  lemma NoSlotFor(arr: seq<Option<Value>>, hash: seq<Node>, ps: seq<Pair>, chains: Chains, k: Key)
    requires Built(arr, hash, ps, chains) && InArray(k, |arr|)
    ensures k !in HashKeys(hash)
  {
    hide Built;
    forall s | 0 <= s < |hash| ensures hash[s].key != k { SlotValue(arr, hash, ps, chains, s); }
  }

  lemma ArrayKeyWalked(arr: seq<Option<Value>>, ps: seq<Pair>, hash: seq<Node>, chains: Chains, k: Key)
    requires Built(arr, hash, ps, chains) && InArray(k, |arr|)
    ensures k in ArrayKeys(arr, 0) <==> Lookup(ps, k).Some?
  {
    ArrayValue(arr, ps, k);
    hide Built, ArrayKeys, Lookup;
    if arr[k.i - 1].Some? { ArrayKeysAll(arr, 0, k.i - 1); }
    var ks := ArrayKeys(arr, 0);
    forall p | 0 <= p < |ks| ensures ks[p] == k ==> arr[k.i - 1].Some? { ArrayKeysAre(arr, 0, p); }
  }

  lemma NoArrayKey(arr: seq<Option<Value>>, k: Key)
    requires !InArray(k, |arr|)
    ensures k !in ArrayKeys(arr, 0)
  {
    hide ArrayKeys;
    var ks := ArrayKeys(arr, 0);
    forall p | 0 <= p < |ks| ensures ks[p] != k { ArrayKeysAre(arr, 0, p); }
  }

  lemma HashKeyWalked(arr: seq<Option<Value>>, hash: seq<Node>, ps: seq<Pair>, chains: Chains, k: Key)
    requires Built(arr, hash, ps, chains) && !InArray(k, |arr|)
    ensures k in HashKeys(hash) <==> Lookup(ps, k).Some?
  {
    BuiltFull(arr, hash, ps, chains);
    hide Built, Lookup;
    if Placed(hash, k) {
      var s :| 0 <= s < |hash| && hash[s].value.Some? && hash[s].key == k;
      SlotValue(arr, hash, ps, chains, s);
      assert HashKeys(hash)[s] == k;
    } else {
      NotPlaced(arr, hash, ps, chains, k);
      forall s | 0 <= s < |hash| ensures hash[s].key != k {}
    }
  }

  lemma ArrayPlaces(arr: seq<Option<Value>>, hash: seq<Node>, ps: seq<Pair>, chains: Chains, p: nat, q: nat)
    requires Built(arr, hash, ps, chains) && p < q < |AllKeys(arr, hash)| && p < |ArrayKeys(arr, 0)|
    ensures AllKeys(arr, hash)[p] != AllKeys(arr, hash)[q]
  {
    var all, ks := AllKeys(arr, hash), ArrayKeys(arr, 0);
    ArrayKeysAre(arr, 0, p);
    if q < |ks| {
      var rest := ArrayKeys(arr, ks[p].i);
      assert ks[q] == ks[p + 1..][q - p - 1];
      ArrayKeysAre(arr, ks[p].i, q - p - 1);
    } else {
      SlotValue(arr, hash, ps, chains, q - |ks|);
    }
  }
}
