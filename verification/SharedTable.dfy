/** The read-only tables of lua-sharedata.c: a hash part with exactly as many slots as keys, built in two passes. */
module SharedTable {
  import opened Common

  /** A key: an integer that fits the `int` of the source, or a string (the source keeps the index of the
      string in a string table, one index for each string). */
  datatype Key = Int(i: int) | Str(s: seq<Byte>)

  /** A value; nested tables are converted first and then are values like others. */
  type Value = nat

  datatype Pair = Pair(key: Key, value: Value)

  const WORD := 0x1_0000_0000

  predicate IsKey(k: Key) { k.Int? ==> -0x8000_0000 <= k.i < 0x8000_0000 }

  /** `calchash` from the byte in front of `l1` downwards. */
  function HashFrom(s: seq<Byte>, h: bv32, step: nat, l1: nat): bv32
    requires l1 <= |s| && step > 0
    decreases l1
  {
    if l1 < step then h
    else HashFrom(s, h ^ ((h << 5) + (h >> 2) + (s[l1 - 1] as bv32)), step, l1 - step)
  }

  function CalcHash(s: seq<Byte>): nat {
    HashFrom(s, (|s| % WORD) as bv32, |s| / 32 + 1, |s|) as nat
  }

  function Hash(k: Key): nat {
    match k
    case Int(i) => i % WORD
    case Str(s) => CalcHash(s)
  }

  lemma HashStep(s: seq<Byte>, h: bv32, step: nat, l1: nat)
    requires l1 <= |s| && step > 0
    ensures l1 < step ==> HashFrom(s, h, step, l1) == h
    ensures l1 >= step ==>
      HashFrom(s, h, step, l1) == HashFrom(s, h ^ ((h << 5) + (h >> 2) + (s[l1 - 1] as bv32)), step, l1 - step)
  {
  }

  /** The hash of "ab", worked out by hand. */
  lemma HashOfShort(s: seq<Byte>)
    requires s == [97, 98]
    ensures Hash(Str(s)) == 5161
  {
    hide HashFrom;
    HashStep(s, 2, 1, 2);
    HashStep(s, 160, 1, 1);
    HashStep(s, 5161, 1, 0);
    var h: bv32, g: bv32 := 2, 160;
    assert h ^ ((h << 5) + (h >> 2) + 98) == 160;
    assert g ^ ((g << 5) + (g >> 2) + 97) == 5161;
  }

  /** `struct node`; an empty slot has no value. */
  datatype Node = Node(key: Key, value: Option<Value>, next: int, keyhash: nat, nocolliding: bool)

  predicate InArray(k: Key, sizearray: nat) { k.Int? && 0 < k.i <= sizearray }

  /** The pairs that belong to the hash part. */
  function HashPairs(ps: seq<Pair>, sizearray: nat): seq<Pair> {
    if ps == [] then []
    else
      HashPairs(ps[..|ps| - 1], sizearray) +
      if InArray(ps[|ps| - 1].key, sizearray) then [] else [ps[|ps| - 1]]
  }

  predicate Distinct(ps: seq<Pair>) { forall i, j :: 0 <= i < j < |ps| ==> ps[i].key != ps[j].key }

  function Main(k: Key, n: nat): nat
    requires n > 0
    ensures Main(k, n) < n
  {
    Hash(k) % n
  }

  // ----- the state of the hash part -----

  /** The slots that hold a key of main position `p`, in the order of the links. */
  type Chains = seq<seq<nat>>

  /** Slot `s` holds a pair of `ps` and the hash of its key. */
  predicate Holds(hash: seq<Node>, ps: seq<Pair>, s: nat)
    requires s < |hash|
  {
    hash[s].value.Some? && Pair(hash[s].key, hash[s].value.value) in ps && hash[s].keyhash == Hash(hash[s].key)
  }

  /** Place `i` of the chain of position `p`. */
  predicate LinkOk(hash: seq<Node>, ps: seq<Pair>, c: seq<nat>, p: nat, i: nat)
    requires p < |hash| && i < |c|
  {
    c[i] < |hash| && Holds(hash, ps, c[i]) && Main(hash[c[i]].key, |hash|) == p &&
    hash[c[i]].next == (if i + 1 < |c| then c[i + 1] else -1) &&
    (if i == 0 then c[i] == p && (hash[p].nocolliding ==> |c| == 1) else c[i] != p && !hash[c[i]].nocolliding)
  }

  /** One chain: it begins at the main position, holds keys of that position only, and ends. */
  predicate ChainOk(hash: seq<Node>, ps: seq<Pair>, c: seq<nat>, p: nat)
    requires p < |hash|
  {
    forall i :: 0 <= i < |c| ==> LinkOk(hash, ps, c, p, i)
  }

  ghost predicate Chained(hash: seq<Node>, ps: seq<Pair>, chains: Chains) {
    hash != [] && |chains| == |hash| &&
    (forall p :: 0 <= p < |hash| ==> ChainOk(hash, ps, chains[p], p)) &&
    (forall s :: 0 <= s < |hash| && hash[s].value.Some? ==> s in chains[Main(hash[s].key, |hash|)]) &&
    (forall s, t :: 0 <= s < t < |hash| && hash[s].value.Some? && hash[t].value.Some? ==> hash[s].key != hash[t].key)
  }

  predicate Placed(hash: seq<Node>, k: Key) { exists s :: 0 <= s < |hash| && hash[s].value.Some? && hash[s].key == k }

  // ----- the two passes -----

  /** After the first pass every main position that is wanted is taken by one of its keys. */
  ghost predicate MainsTaken(hash: seq<Node>, ps: seq<Pair>)
    requires hash != []
  {
    forall i :: 0 <= i < |ps| ==>
      var s := Main(ps[i].key, |hash|);
      hash[s].value.Some? && Main(hash[s].key, |hash|) == s
  }

  /** A key whose main position is empty is put there. */
  lemma PutMain(hash: seq<Node>, hash': seq<Node>, ps: seq<Pair>, chains: Chains, p: Pair)
    requires Chained(hash, ps, chains) && p in ps && !Placed(hash, p.key)
    requires
      var m := Main(p.key, |hash|);
      hash[m].value == None && chains[m] == [] &&
      hash' == hash[m := Node(p.key, Some(p.value), -1, Hash(p.key), true)]
    ensures Chained(hash', ps, chains[Main(p.key, |hash|) := [Main(p.key, |hash|)]])
  {
    var m := Main(p.key, |hash|);
    var chains' := chains[m := [m]];
    forall q | 0 <= q < |hash'| ensures ChainOk(hash', ps, chains'[q], q) {
      assert ChainOk(hash, ps, chains[q], q);
      if q != m { KeptChain(hash, hash', ps, chains[q], q, m); } else { assert LinkOk(hash', ps, [m], m, 0); }
    }
    hide ChainOk;
  }

  lemma KeptChain(hash: seq<Node>, hash': seq<Node>, ps: seq<Pair>, c: seq<nat>, q: nat, s: nat)
    requires |hash'| == |hash| && s < |hash| && q < |hash| && ChainOk(hash, ps, c, q) && hash[s].value == None
    requires forall t :: 0 <= t < |hash| && t != s ==> hash'[t] == hash[t]
    ensures ChainOk(hash', ps, c, q)
  {
    forall i | 0 <= i < |c|
      ensures LinkOk(hash', ps, c, q, i)
    {
      assert LinkOk(hash, ps, c, q, 0);
      assert LinkOk(hash, ps, c, q, i);
    }
  }

  /** A key whose main position is taken goes to an empty slot, linked right behind its main position. */
  lemma PutChain(hash: seq<Node>, hash': seq<Node>, ps: seq<Pair>, chains: Chains, p: Pair, s: nat)
    requires Chained(hash, ps, chains) && p in ps && !Placed(hash, p.key)
    requires s < |hash| && hash[s].value == None
    requires
      var m := Main(p.key, |hash|);
      hash[m].value.Some? && Main(hash[m].key, |hash|) == m &&
      hash' == hash[s := Node(p.key, Some(p.value), hash[m].next, Hash(p.key), false)]
                   [m := hash[m].(next := s, nocolliding := false)]
    ensures
      var m := Main(p.key, |hash|);
      chains[m] != [] && Chained(hash', ps, chains[m := [m, s] + chains[m][1..]])
  {
    var m := Main(p.key, |hash|);
    assert ChainOk(hash, ps, chains[m], m) && m in chains[m];
    var c := [m, s] + chains[m][1..];
    var chains' := chains[m := c];
    if s in chains[m] { ChainMember(hash, ps, chains[m], m, s); }
    FirstLink(hash, ps, chains[m], m);
    assert Holds(hash', ps, s);
    hide ChainOk, Holds, Hash, Main;
    forall q | 0 <= q < |hash'| ensures ChainOk(hash', ps, chains'[q], q) {
      assert ChainOk(hash, ps, chains[q], q);
      if q == m { NewChain(hash, hash', ps, chains[m], m, s); } else { OldChain(hash, hash', ps, chains[q], q, m, s); }
    }
    forall t | 0 <= t < |hash'| && hash'[t].value.Some?
      ensures t in chains'[Main(hash'[t].key, |hash'|)]
    {
      if t == s { assert c[1] == s; }
      else {
        var q := Main(hash[t].key, |hash|);
        assert t in chains[q];
        if q == m { InTail(chains[m], m, t); }
      }
    }
  }

  lemma ChainMember(hash: seq<Node>, ps: seq<Pair>, c: seq<nat>, p: nat, t: nat)
    requires p < |hash| && ChainOk(hash, ps, c, p) && t in c
    ensures t < |hash| && Holds(hash, ps, t) && Main(hash[t].key, |hash|) == p
  {
    var i :| 0 <= i < |c| && c[i] == t;
    assert LinkOk(hash, ps, c, p, i);
  }

  lemma FirstLink(hash: seq<Node>, ps: seq<Pair>, c: seq<nat>, p: nat)
    requires p < |hash| && ChainOk(hash, ps, c, p) && c != []
    ensures c[0] == p
  {
    assert LinkOk(hash, ps, c, p, 0);
  }

  lemma InTail(c: seq<nat>, m: nat, t: nat)
    requires c != [] && c[0] == m && t in c
    ensures t == m || t in c[1..]
  {
    var i :| 0 <= i < |c| && c[i] == t;
    if i > 0 { assert c[1..][i - 1] == t; }
  }

  lemma OldChain(hash: seq<Node>, hash': seq<Node>, ps: seq<Pair>, c: seq<nat>, q: nat, m: nat, s: nat)
    requires |hash'| == |hash| && m < |hash| && s < |hash| && q < |hash| && q != m && ChainOk(hash, ps, c, q)
    requires hash[s].value == None && hash[m].value.Some? && Main(hash[m].key, |hash|) == m
    requires forall t :: 0 <= t < |hash| && t != m && t != s ==> hash'[t] == hash[t]
    ensures ChainOk(hash', ps, c, q)
  {
    forall i | 0 <= i < |c|
      ensures LinkOk(hash', ps, c, q, i)
    {
      assert LinkOk(hash, ps, c, q, 0);
      assert LinkOk(hash, ps, c, q, i);
    }
  }

  lemma NewChain(hash: seq<Node>, hash': seq<Node>, ps: seq<Pair>, c: seq<nat>, m: nat, s: nat)
    requires |hash'| == |hash| && m < |hash| && s < |hash| && s != m && c != [] && ChainOk(hash, ps, c, m) && s !in c
    requires Holds(hash', ps, s) && Main(hash'[s].key, |hash|) == m && hash'[s].next == hash[m].next &&
      !hash'[s].nocolliding
    requires hash'[m] == hash[m].(next := s, nocolliding := false)
    requires forall t :: 0 <= t < |hash| && t != m && t != s ==> hash'[t] == hash[t]
    ensures ChainOk(hash', ps, [m, s] + c[1..], m)
  {
    var d := [m, s] + c[1..];
    assert LinkOk(hash, ps, c, m, 0);
    forall i | 0 <= i < |d|
      ensures LinkOk(hash', ps, d, m, i)
    {
      if i >= 2 {
        assert d[i] == c[i - 1];
        assert i + 1 < |d| ==> d[i + 1] == c[i];
        assert LinkOk(hash, ps, c, m, i - 1);
      }
    }
  }

  // ----- counting -----

  lemma {:induction false} Pigeons(a: set<nat>, n: nat)
    requires forall x <- a :: x < n
    ensures |a| <= n
  {
    if n == 0 {
      assert a == {};
    } else {
      Pigeons(a - {n - 1}, n - 1);
    }
  }

  /** The slots that hold a key, below `n`. */
  function Taken(hash: seq<Node>, n: nat): set<nat>
    requires n <= |hash|
  {
    set s: nat | s < n && hash[s].value.Some?
  }

  function KeysOf(ps: seq<Pair>): set<Key> { set i | 0 <= i < |ps| :: ps[i].key }

  lemma {:induction false} KeyCount(ps: seq<Pair>)
    requires Distinct(ps)
    ensures |KeysOf(ps)| == |ps|
  {
    if ps != [] {
      var front, last := ps[..|ps| - 1], ps[|ps| - 1];
      KeyCount(front);
      assert KeysOf(ps) == KeysOf(front) + {last.key};
    }
  }

  /** The keys in the slots of `t`. */
  function KeysAt(hash: seq<Node>, t: set<nat>): set<Key>
    requires forall s <- t :: s < |hash|
  {
    set s | s in t :: hash[s].key
  }

  lemma {:induction false} NoMoreKeys(hash: seq<Node>, t: set<nat>)
    requires forall s <- t :: s < |hash|
    ensures |KeysAt(hash, t)| <= |t|
    decreases |t|
  {
    if t != {} {
      var s :| s in t;
      NoMoreKeys(hash, t - {s});
      assert KeysAt(hash, t) == KeysAt(hash, t - {s}) + {hash[s].key};
    } else {
      assert KeysAt(hash, t) == {};
    }
  }

  lemma {:induction false} AsManyKeys(hash: seq<Node>, t: set<nat>)
    requires forall s <- t :: s < |hash|
    requires forall s, u :: s in t && u in t && s != u ==> hash[s].key != hash[u].key
    ensures |KeysAt(hash, t)| == |t|
    decreases |t|
  {
    if t != {} {
      var s :| s in t;
      AsManyKeys(hash, t - {s});
      assert KeysAt(hash, t) == KeysAt(hash, t - {s}) + {hash[s].key};
      assert hash[s].key !in KeysAt(hash, t - {s});
    } else {
      assert KeysAt(hash, t) == {};
    }
  }

  lemma Fewer(a: set<Key>, b: set<Key>)
    requires a <= b
    ensures |a| <= |b| && (|a| == |b| ==> a == b)
  {
    assert b == a + (b - a);
    if |a| == |b| { assert |b - a| == 0; }
  }

  /** As long as a key has no slot, some slot is empty. */
  lemma SomeEmpty(hash: seq<Node>, ps: seq<Pair>, chains: Chains, k: Key)
    requires Chained(hash, ps, chains) && Distinct(ps) && |hash| == |ps| && k in KeysOf(ps) && !Placed(hash, k)
    ensures exists s :: 0 <= s < |hash| && hash[s].value == None
  {
    if forall s :: 0 <= s < |hash| ==> hash[s].value.Some? {
      var t := First(|hash|);
      AsManyKeys(hash, t);
      HeldKeys(hash, ps, chains, t);
      KeyCount(ps);
      assert k !in KeysAt(hash, t);
      Fewer(KeysAt(hash, t), KeysOf(ps) - {k});
      assert false;
    }
  }

  /** The numbers below `n`. */
  function First(n: nat): (r: set<nat>)
    ensures |r| == n && forall x: nat :: x in r <==> x < n
  {
    if n == 0 then {} else First(n - 1) + {n - 1}
  }

  lemma HeldKeys(hash: seq<Node>, ps: seq<Pair>, chains: Chains, t: set<nat>)
    requires Chained(hash, ps, chains) && forall s <- t :: s < |hash| && hash[s].value.Some?
    ensures KeysAt(hash, t) <= KeysOf(ps)
  {
    forall s | s in t
      ensures hash[s].key in KeysOf(ps)
    {
      var q := Main(hash[s].key, |hash|);
      ChainMember(hash, ps, chains[q], q, s);
    }
  }

  /** When every key has a slot, the hash part is completely full. */
  lemma CompletelyFull(hash: seq<Node>, ps: seq<Pair>)
    requires Distinct(ps) && |hash| == |ps| && forall i :: 0 <= i < |ps| ==> Placed(hash, ps[i].key)
    ensures forall s :: 0 <= s < |hash| ==> hash[s].value.Some?
  {
    var t := Taken(hash, |hash|);
    forall k | k in KeysOf(ps)
      ensures k in KeysAt(hash, t)
    {
      assert Placed(hash, k);
      var s :| 0 <= s < |hash| && hash[s].value.Some? && hash[s].key == k;
      assert s in t;
    }
    Fewer(KeysOf(ps), KeysAt(hash, t));
    NoMoreKeys(hash, t);
    KeyCount(ps);
    forall s | 0 <= s < |hash|
      ensures hash[s].value.Some?
    {
      if hash[s].value == None {
        assert t <= First(|hash|) - {s};
        SubsetSize(t, First(|hash|) - {s});
      }
    }
  }

  lemma SubsetSize(a: set<nat>, b: set<nat>)
    requires a <= b
    ensures |a| <= |b|
  {
    assert b == a + (b - a);
  }

  // ----- what the passes see -----

  lemma {:induction false} HashPairsAre(ps: seq<Pair>, sizearray: nat)
    ensures forall p :: p in HashPairs(ps, sizearray) <==> p in ps && !InArray(p.key, sizearray)
  {
    if ps != [] {
      HashPairsAre(ps[..|ps| - 1], sizearray);
      assert ps == ps[..|ps| - 1] + [ps[|ps| - 1]];
    }
  }

  lemma {:induction false} HashPairsDistinct(ps: seq<Pair>, sizearray: nat)
    requires Distinct(ps)
    ensures Distinct(HashPairs(ps, sizearray))
  {
    if ps != [] {
      var front, last := ps[..|ps| - 1], ps[|ps| - 1];
      HashPairsDistinct(front, sizearray);
      HashPairsAre(front, sizearray);
      forall i | 0 <= i < |HashPairs(front, sizearray)|
        ensures HashPairs(front, sizearray)[i].key != last.key
      {
        var p := HashPairs(front, sizearray)[i];
        assert p in HashPairs(front, sizearray);
      }
    }
  }

  /** `countsize`: the number of keys for the hash part. */
  method CountSize(ps: seq<Pair>, sizearray: nat) returns (n: nat)
    ensures n == |HashPairs(ps, sizearray)|
  {
    n := 0;
    var m: int := 0;
    var i := 0;
    while i < |ps|
      invariant 0 <= i <= |ps| && m == |HashPairs(ps[..i], sizearray)|
    {
      assert ps[..i + 1][..i] == ps[..i];
      m := m + 1;
      if ps[i].key.Int? && 0 < ps[i].key.i <= sizearray { m := m - 1; }
      i := i + 1;
    }
    assert ps[..i] == ps;
    n := m;
  }

  /** The array part holds the pairs among the first `i` that belong there, and nothing else. */
  predicate ArrayHolds(arr: seq<Option<Value>>, ps: seq<Pair>, i: nat)
    requires i <= |ps|
  {
    (forall j :: 0 <= j < i && InArray(ps[j].key, |arr|) ==> arr[ps[j].key.i - 1] == Some(ps[j].value)) &&
    (forall k :: 0 <= k < |arr| && arr[k].Some? ==> exists j :: 0 <= j < i && ps[j] == Pair(Int(k + 1), arr[k].value))
  }

  /** A key among the first `i`. */
  predicate Seen(ps: seq<Pair>, i: nat, k: Key)
    requires i <= |ps|
  {
    exists j :: 0 <= j < i && ps[j].key == k
  }

  ghost predicate FirstPass(hash: seq<Node>, hps: seq<Pair>, chains: Chains, ps: seq<Pair>, i: nat, sizearray: nat)
    requires i <= |ps|
  {
    Chained(hash, hps, chains) &&
    (forall s :: 0 <= s < |hash| && hash[s].value.Some? ==>
      Main(hash[s].key, |hash|) == s && Seen(ps, i, hash[s].key)) &&
    (forall s :: 0 <= s < |hash| && hash[s].value == None ==> chains[s] == []) &&
    (forall j :: 0 <= j < i && !InArray(ps[j].key, sizearray) ==> hash[Main(ps[j].key, |hash|)].value.Some?)
  }

  lemma PutArray(arr: seq<Option<Value>>, ps: seq<Pair>, i: nat)
    requires Distinct(ps) && i < |ps| && ArrayHolds(arr, ps, i)
    ensures InArray(ps[i].key, |arr|) ==> ArrayHolds(arr[ps[i].key.i - 1 := Some(ps[i].value)], ps, i + 1)
    ensures !InArray(ps[i].key, |arr|) ==> ArrayHolds(arr, ps, i + 1)
  {
    if InArray(ps[i].key, |arr|) {
      var arr' := arr[ps[i].key.i - 1 := Some(ps[i].value)];
      forall k | 0 <= k < |arr'| && arr'[k].Some?
        ensures exists j :: 0 <= j < i + 1 && ps[j] == Pair(Int(k + 1), arr'[k].value)
      {
        if k == ps[i].key.i - 1 {
          assert ps[i] == Pair(Int(k + 1), arr'[k].value);
        } else {
          var j :| 0 <= j < i && ps[j] == Pair(Int(k + 1), arr[k].value);
        }
      }
    } else {
      forall k | 0 <= k < |arr| && arr[k].Some?
        ensures exists j :: 0 <= j < i + 1 && ps[j] == Pair(Int(k + 1), arr[k].value)
      {
        var j :| 0 <= j < i && ps[j] == Pair(Int(k + 1), arr[k].value);
      }
    }
  }

  lemma SeenOnce(ps: seq<Pair>, i: nat)
    requires Distinct(ps) && i < |ps|
    ensures !Seen(ps, i, ps[i].key) && forall k :: Seen(ps, i + 1, k) <==> Seen(ps, i, k) || k == ps[i].key
  {
    forall k | Seen(ps, i + 1, k)
      ensures Seen(ps, i, k) || k == ps[i].key
    {
      var j :| 0 <= j < i + 1 && ps[j].key == k;
      if j < i { assert Seen(ps, i, k); }
    }
    forall k | Seen(ps, i, k)
      ensures Seen(ps, i + 1, k)
    {
      var j :| 0 <= j < i && ps[j].key == k;
      assert 0 <= j < i + 1;
    }
    assert 0 <= i < i + 1;
  }

  lemma FirstPut(hash: seq<Node>, hps: seq<Pair>, chains: Chains, ps: seq<Pair>, i: nat, sizearray: nat)
    requires Distinct(ps) && i < |ps| && ps[i] in hps && FirstPass(hash, hps, chains, ps, i, sizearray)
    ensures
      var m := Main(ps[i].key, |hash|);
      if hash[m].value == None then
        FirstPass(hash[m := Node(ps[i].key, Some(ps[i].value), -1, Hash(ps[i].key), true)], hps, chains[m := [m]], ps,
                  i + 1, sizearray)
      else FirstPass(hash, hps, chains, ps, i + 1, sizearray)
  {
    SeenOnce(ps, i);
    var m := Main(ps[i].key, |hash|);
    if hash[m].value == None {
      assert !Placed(hash, ps[i].key);
      PutMain(hash, hash[m := Node(ps[i].key, Some(ps[i].value), -1, Hash(ps[i].key), true)], hps, chains, ps[i]);
    }
  }

  lemma FirstSkip(hash: seq<Node>, hps: seq<Pair>, chains: Chains, ps: seq<Pair>, i: nat, sizearray: nat)
    requires Distinct(ps) && i < |ps| && InArray(ps[i].key, sizearray) && FirstPass(hash, hps, chains, ps, i, sizearray)
    ensures FirstPass(hash, hps, chains, ps, i + 1, sizearray)
  {
    SeenOnce(ps, i);
  }

  /** `fillnocolliding`: array values go to the array part, and each main position to the first key that wants it. */
  method FillNoColliding(arr: array<Option<Value>>, hash: array<Node>, ps: seq<Pair>) returns (ghost chains: Chains)
    requires Distinct(ps) && hash.Length == |HashPairs(ps, arr.Length)| > 0
    requires forall s :: 0 <= s < hash.Length ==> hash[s].value == None
    requires forall k :: 0 <= k < arr.Length ==> arr[k] == None
    modifies arr, hash
    ensures FirstPass(hash[..], HashPairs(ps, arr.Length), chains, ps, |ps|, arr.Length)
    ensures ArrayHolds(arr[..], ps, |ps|)
  {
    hide *;
    ghost var hps := HashPairs(ps, arr.Length);
    HashPairsAre(ps, arr.Length);
    chains := seq(hash.Length, _ => []);
    FirstStart(hash[..], hps, chains, ps, arr[..]);
    var i := 0;
    while i < |ps|
      invariant 0 <= i <= |ps| && FirstPass(hash[..], hps, chains, ps, i, arr.Length) && ArrayHolds(arr[..], ps, i)
    {
      var p := ps[i];
      PutArray(arr[..], ps, i);
      InArrayIs(p.key, arr.Length);
      if p.key.Int? && 0 < p.key.i <= arr.Length {
        FirstSkip(hash[..], hps, chains, ps, i, arr.Length);
        arr[p.key.i - 1] := Some(p.value);
      } else {
        FirstPut(hash[..], hps, chains, ps, i, arr.Length);
        ChainsLength(hash[..], hps, chains, ps, i, arr.Length);
        var m := Main(p.key, hash.Length);
        if hash[m].value == None {
          hash[m] := Node(p.key, Some(p.value), -1, Hash(p.key), true);
          chains := chains[m := [m]];
        }
      }
      i := i + 1;
    }
  }

  lemma ChainsLength(hash: seq<Node>, hps: seq<Pair>, chains: Chains, ps: seq<Pair>, i: nat, sizearray: nat)
    requires i <= |ps| && FirstPass(hash, hps, chains, ps, i, sizearray)
    ensures |chains| == |hash|
  {
  }

  lemma InArrayIs(k: Key, n: nat)
    ensures InArray(k, n) <==> k.Int? && 0 < k.i <= n
  {
  }

  lemma FirstStart(hash: seq<Node>, hps: seq<Pair>, chains: Chains, ps: seq<Pair>, arr: seq<Option<Value>>)
    requires hash != [] && |chains| == |hash| && (forall s :: 0 <= s < |chains| ==> chains[s] == [])
    requires forall s :: 0 <= s < |hash| ==> hash[s].value == None
    requires forall k :: 0 <= k < |arr| ==> arr[k] == None
    ensures FirstPass(hash, hps, chains, ps, 0, |arr|) && ArrayHolds(arr, ps, 0)
  {
  }

  // ----- the second pass -----

  ghost predicate SecondPass(hash: seq<Node>, hps: seq<Pair>, chains: Chains, ps: seq<Pair>, i: nat, sizearray: nat)
    requires i <= |ps|
  {
    Chained(hash, hps, chains) && MainsTaken(hash, hps) &&
    (forall s :: 0 <= s < |hash| && hash[s].value.Some? ==>
      Main(hash[s].key, |hash|) == s || Seen(ps, i, hash[s].key)) &&
    (forall j :: 0 <= j < i && !InArray(ps[j].key, sizearray) ==> Placed(hash, ps[j].key))
  }

  lemma SecondStart(hash: seq<Node>, chains: Chains, ps: seq<Pair>, sizearray: nat)
    requires FirstPass(hash, HashPairs(ps, sizearray), chains, ps, |ps|, sizearray)
    ensures SecondPass(hash, HashPairs(ps, sizearray), chains, ps, 0, sizearray)
  {
    HashPairsAre(ps, sizearray);
    var hps := HashPairs(ps, sizearray);
    forall i | 0 <= i < |hps|
      ensures
        var s := Main(hps[i].key, |hash|);
        hash[s].value.Some? && Main(hash[s].key, |hash|) == s
    {
      assert hps[i] in hps && hps[i] in ps;
    }
  }

  /** A key that sits in its main position already. */
  lemma SecondSkip(hash: seq<Node>, hps: seq<Pair>, chains: Chains, ps: seq<Pair>, i: nat, sizearray: nat)
    requires Distinct(ps) && i < |ps| && SecondPass(hash, hps, chains, ps, i, sizearray)
    requires InArray(ps[i].key, sizearray) || hash[Main(ps[i].key, |hash|)].key == ps[i].key
    requires !InArray(ps[i].key, sizearray) ==> ps[i] in hps
    ensures SecondPass(hash, hps, chains, ps, i + 1, sizearray)
  {
    SeenOnce(ps, i);
    if !InArray(ps[i].key, sizearray) {
      var j :| 0 <= j < |hps| && hps[j] == ps[i];
      assert hash[Main(hps[j].key, |hash|)].value.Some?;
      assert Placed(hash, ps[i].key);
    }
  }

  /** A key that does not has not been placed at all. */
  lemma NotYet(hash: seq<Node>, hps: seq<Pair>, chains: Chains, ps: seq<Pair>, i: nat, sizearray: nat)
    requires Distinct(ps) && i < |ps| && SecondPass(hash, hps, chains, ps, i, sizearray)
    requires ps[i] in hps && hash[Main(ps[i].key, |hash|)].key != ps[i].key
    ensures !Placed(hash, ps[i].key)
    ensures
      var m := Main(ps[i].key, |hash|);
      hash[m].value.Some? && Main(hash[m].key, |hash|) == m
  {
    SeenOnce(ps, i);
    var j :| 0 <= j < |hps| && hps[j] == ps[i];
    assert hash[Main(hps[j].key, |hash|)].value.Some?;
  }

  lemma SecondPut(hash: seq<Node>, hash': seq<Node>, hps: seq<Pair>, chains: Chains, ps: seq<Pair>, i: nat,
                  sizearray: nat, s: nat)
    requires Distinct(ps) && i < |ps| && SecondPass(hash, hps, chains, ps, i, sizearray)
    requires ps[i] in hps && s < |hash| && hash[s].value == None && hash[Main(ps[i].key, |hash|)].key != ps[i].key
    requires
      var m := Main(ps[i].key, |hash|);
      hash' == hash[s := Node(ps[i].key, Some(ps[i].value), hash[m].next, Hash(ps[i].key), false)]
                   [m := hash[m].(next := s, nocolliding := false)]
    ensures
      var m := Main(ps[i].key, |hash|);
      m < |chains| && chains[m] != [] &&
      SecondPass(hash', hps, chains[m := [m, s] + chains[m][1..]], ps, i + 1, sizearray)
  {
    SeenOnce(ps, i);
    NotYet(hash, hps, chains, ps, i, sizearray);
    PutChain(hash, hash', hps, chains, ps[i], s);
    hide Chained;
    assert Placed(hash', ps[i].key) by { assert hash'[s].key == ps[i].key; }
    forall j | 0 <= j < i + 1 && !InArray(ps[j].key, sizearray)
      ensures Placed(hash', ps[j].key)
    {
      if j < i {
        var t :| 0 <= t < |hash| && hash[t].value.Some? && hash[t].key == ps[j].key;
        assert hash'[t].value.Some? && hash'[t].key == ps[j].key;
      }
    }
  }

  /** The search for an empty slot; that there is one is what the source asserts. */
  method FindEmpty(hash: array<Node>) returns (s: nat)
    requires exists t :: 0 <= t < hash.Length && hash[t].value == None
    ensures s < hash.Length && hash[s].value == None
  {
    s := 0;
    while s < hash.Length && hash[s].value.Some?
      invariant 0 <= s <= hash.Length && forall t :: 0 <= t < s ==> hash[t].value.Some?
    {
      s := s + 1;
    }
  }

  /** `fillcolliding` */
  method FillColliding(hash: array<Node>, ps: seq<Pair>, sizearray: nat, ghost chains0: Chains)
    returns (ghost chains: Chains)
    requires Distinct(ps) && hash.Length == |HashPairs(ps, sizearray)|
    requires SecondPass(hash[..], HashPairs(ps, sizearray), chains0, ps, 0, sizearray)
    modifies hash
    ensures SecondPass(hash[..], HashPairs(ps, sizearray), chains, ps, |ps|, sizearray)
  {
    hide *;
    ghost var hps := HashPairs(ps, sizearray);
    HashPairsAre(ps, sizearray);
    HashPairsDistinct(ps, sizearray);
    chains := chains0;
    var i := 0;
    while i < |ps|
      invariant 0 <= i <= |ps| && SecondPass(hash[..], hps, chains, ps, i, sizearray)
    {
      var p := ps[i];
      InArrayIs(p.key, sizearray);
      if p.key.Int? && 0 < p.key.i <= sizearray {
        SecondSkip(hash[..], hps, chains, ps, i, sizearray);
      } else {
        SomeSlots(hash[..], hps, chains, ps, i, sizearray);
        var m := Main(p.key, hash.Length);
        if hash[m].key == p.key {
          SecondSkip(hash[..], hps, chains, ps, i, sizearray);
        } else {
          NotYet(hash[..], hps, chains, ps, i, sizearray);
          InKeys(hps, p);
          SomeEmpty(hash[..], hps, chains, p.key);
          var s := FindEmpty(hash);
          ghost var was := hash[..];
          hash[s] := Node(p.key, Some(p.value), hash[m].next, Hash(p.key), false);
          hash[m] := hash[m].(next := s, nocolliding := false);
          SecondPut(was, hash[..], hps, chains, ps, i, sizearray, s);
          chains := chains[m := [m, s] + chains[m][1..]];
        }
      }
      i := i + 1;
    }
  }

  lemma SomeSlots(hash: seq<Node>, hps: seq<Pair>, chains: Chains, ps: seq<Pair>, i: nat, sizearray: nat)
    requires i <= |ps| && SecondPass(hash, hps, chains, ps, i, sizearray)
    ensures hash != [] && Chained(hash, hps, chains)
  {
  }

  lemma InKeys(hps: seq<Pair>, p: Pair)
    requires p in hps
    ensures p.key in KeysOf(hps)
  {
  }
}
