/** The handle table of skynet_handle.c: slots by the low bits of a handle, and the sorted names. Each method is one
    section under the lock. */
module HandleTable {
  import opened Common
  import opened Bignum

  const HANDLE_MASK := 0xFF_FFFF
  const HANDLES := 0x100_0000
  const DEFAULT_SLOT_SIZE := 4

  /** A context and the handle that it has been given. */
  datatype Entry = Entry(handle: nat, ctx: nat)

  // ----- the slots -----

  type Slots = seq<Option<Entry>>

  /** Every context is in the slot of the low bits of its handle. */
  predicate Placed(slots: Slots) {
    slots != [] && forall i :: 0 <= i < |slots| && slots[i].Some? ==> slots[i].value.handle % |slots| == i
  }

  /** What is registered under a handle. */
  function Lookup(slots: Slots, handle: nat): Option<nat>
    requires slots != []
  {
    var e := slots[handle % |slots|];
    if e.Some? && e.value.handle == handle then Some(e.value.ctx) else None
  }

  /** The sizes that the table can have. */
  predicate Size(n: nat, e: nat) { 2 <= e <= 24 && n == Pow(2, e) }

  lemma Residue(x: nat, q: nat, r: nat, n: nat)
    requires n > 0 && x == q * n + r && r < n
    ensures x % n == r
  {
    var q' := x / n;
    assert x == q' * n + x % n;
    Distribute(q, -q', n);
    if q > q' { Times(1, q - q', n); }
    if q < q' { Times(1, q' - q, n); }
  }

  lemma TwoTo24()
    ensures Pow(2, 24) == HANDLES
  {
    assert Pow(2, 1) == 2 * Pow(2, 0) == 2;
    assert Pow(2, 3) == 2 * Pow(2, 2) == 4 * Pow(2, 1);
    hide Pow;
    PowTwice(2, 3);
    PowTwice(2, 6);
    PowTwice(2, 12);
  }

  /** A size divides the number of handles. */
  lemma SizeDivides(n: nat, e: nat) returns (m: nat)
    requires Size(n, e)
    ensures 4 <= n <= HANDLES && m > 0 && m * n == HANDLES && (n == HANDLES || 2 * n <= HANDLES)
  {
    TwoTo24();
    assert Pow(2, 2) == 2 * Pow(2, 1) == 4 * Pow(2, 0);
    m := Pow(2, 24 - e);
    PowAdd(2, 24 - e, e);
    PowAdd(2, e - 2, 2);
    Times(1, Pow(2, e - 2), 4);
    Times(1, m, n);
    if e < 24 {
      PowAdd(2, 23 - e, e + 1);
      assert Pow(2, e + 1) == 2 * n;
      Times(1, Pow(2, 23 - e), 2 * n);
    }
  }

  /** Where the search for an empty slot starts, and the `j`th handle that it tries: 1 comes behind the last handle. */
  function Start(index: nat): nat { if index > HANDLE_MASK then 1 else index }

  function Probe(b: nat, j: nat): nat { if b + j <= HANDLE_MASK then b + j else b + j - HANDLE_MASK }

  /** Whether the search passes the last handle. */
  predicate Wraps(b: nat, n: nat) { b + n - 1 > HANDLE_MASK }

  /** A search that does not pass the last handle tries every slot; one that does tries every slot but the first. */
  lemma Tried(b: nat, n: nat, m: nat, r: nat) returns (j: nat)
    requires 0 < b <= HANDLE_MASK && 0 < n && m * n == HANDLES && r < n && (Wraps(b, n) ==> r > 0)
    ensures j < n && Probe(b, j) % n == r
  {
    var k := HANDLES - b;
    if k >= n {
      var q, s := b / n, b % n;
      assert b == q * n + s;
      if r >= s {
        j := r - s;
        Residue(b + j, q, r, n);
      } else {
        j := r + n - s;
        Distribute(q, 1, n);
        Residue(b + j, q + 1, r, n);
      }
    } else {
      Distribute(m, -1, n);
      if r >= n - k {
        j := r - (n - k);
        MoreThanOne(m, n);
        Residue(b + j, m - 1, r, n);
      } else {
        j := k + r - 1;
        Residue(r, 0, r, n);
      }
    }
  }

  lemma MoreThanOne(m: nat, n: nat)
    requires m * n == HANDLES
    ensures m >= 1
  {
  }

  lemma NeverFirst(b: nat, n: nat, m: nat, j: nat)
    requires 0 < b <= HANDLE_MASK && 0 < n && m * n == HANDLES && j < n && Wraps(b, n)
    ensures Probe(b, j) % n != 0
  {
    var k := HANDLES - b;
    Distribute(m, -1, n);
    MoreThanOne(m, n);
    if j < k {
      Residue(b + j, m - 1, n - k + j, n);
    } else {
      Residue(j - k + 1, 0, j - k + 1, n);
    }
  }

  lemma ProbeInRange(b: nat, n: nat, j: nat)
    requires 0 < b <= HANDLE_MASK && j < n <= HANDLES
    ensures 0 < Probe(b, j) <= HANDLE_MASK
  {
  }

  /** The slots that a search without success has found taken. */
  predicate Taken(slots: Slots, b: nat) {
    (forall i :: 1 <= i < |slots| ==> slots[i].Some?) && (|slots| > 0 && !Wraps(b, |slots|) ==> slots[0].Some?)
  }

  /** The first handle that a search from `b` tries whose slot is empty. */
  predicate FirstFree(slots: Slots, b: nat, handle: nat) {
    slots != [] && slots[handle % |slots|] == None &&
    exists j :: 0 <= j < |slots| && handle == Probe(b, j) && TakenUpTo(slots, b, j)
  }

  predicate TakenUpTo(slots: Slots, b: nat, j: nat)
    requires slots != []
  {
    forall i :: 0 <= i < j ==> slots[Probe(b, i) % |slots|].Some?
  }

  /** The loop of `skynet_handle_register` over the slots. */
  method Scan(slot: array<Option<Entry>>, index: nat, ghost e: nat) returns (found: bool, handle: nat)
    requires Size(slot.Length, e) && 0 < index <= HANDLES
    ensures found <==> !Taken(slot[..], Start(index))
    ensures found ==> 0 < handle <= HANDLE_MASK && FirstFree(slot[..], Start(index), handle)
  {
    ghost var b, n := Start(index), slot.Length;
    ghost var m := SizeDivides(n, e);
    hide Size;
    handle := index;
    var i := 0;
    while i < slot.Length
      invariant 0 <= i <= n && handle == (if i == 0 then index else Probe(b, i - 1) + 1)
      invariant TakenUpTo(slot[..], b, i)
    {
      if handle > HANDLE_MASK { handle := 1; }
      assert handle == Probe(b, i);
      ProbeInRange(b, n, i);
      if slot[handle % slot.Length] == None {
        NotTaken(slot[..], b, m, i);
        return true, handle;
      }
      i := i + 1;
      handle := handle + 1;
    }
    forall r | 0 <= r < n && (Wraps(b, n) ==> r > 0) ensures slot[r].Some? {
      var j := Tried(b, n, m, r);
      assert slot[..][Probe(b, j) % n].Some?;
    }
    return false, 0;
  }

  lemma NotTaken(slots: Slots, b: nat, m: nat, j: nat)
    requires 0 < b <= HANDLE_MASK && m * |slots| == HANDLES && j < |slots| && slots[Probe(b, j) % |slots|] == None
    ensures !Taken(slots, b)
  {
    if Wraps(b, |slots|) { NeverFirst(b, |slots|, m, j); }
  }

  /** What a registration comes to: a handle, the assertion on the size, or the reading of the handle of a slot
      without a context when the table grows. */
  datatype Registration = Registered(handle: nat) | TooMany | NoContext

  ghost predicate Same(a: Slots, b: Slots)
    requires a != [] && b != []
  {
    forall h: nat :: Lookup(a, h) == Lookup(b, h)
  }

  lemma Halves(x: nat, n: nat)
    requires n > 0
    ensures x % (2 * n) == x % n || x % (2 * n) == x % n + n
  {
    var q, r := x / n, x % n;
    assert x == q * n + r;
    var p := q / 2;
    Commute(p, n);
    if q % 2 == 0 {
      assert q == 2 * p;
      Residue(x, p, r, 2 * n);
    } else {
      assert q == 2 * p + 1;
      Distribute(2 * p, 1, n);
      Residue(x, p, r + n, 2 * n);
    }
  }

  lemma Commute(p: nat, n: nat)
    ensures p * (2 * n) == (2 * p) * n
  {
  }

  /** In the larger table no two contexts meet, and half of the slots stay empty. */
  lemma Spread(slots: Slots, larger: Slots)
    requires Placed(slots) && |larger| == 2 * |slots| && forall i :: 0 <= i < |slots| ==> slots[i].Some?
    requires forall i :: 0 <= i < |slots| ==> larger[slots[i].value.handle % (2 * |slots|)] == slots[i]
    requires forall k :: 0 <= k < |larger| && larger[k].Some? ==>
      larger[k] == slots[k % |slots|] && larger[k].value.handle % |larger| == k
    ensures Placed(larger) && Same(larger, slots)
    ensures |slots| > 1 ==> larger[1] == None || larger[1 + |slots|] == None
  {
    var n := |slots|;
    forall h: nat ensures Lookup(larger, h) == Lookup(slots, h) {
      Halves(h, n);
      Halves(slots[h % n].value.handle, n);
      ModOfHalf(h % (2 * n), n);
    }
    if n > 1 {
      Residue(1, 0, 1, n);
      Residue(1 + n, 1, 1, n);
    }
  }

  lemma ModOfHalf(k: nat, n: nat)
    requires n > 0 && k < 2 * n
    ensures k % n == if k < n then k else k - n
  {
    if k < n { Residue(k, 0, k, n); } else { Residue(k, 1, k - n, n); }
  }

  /** The first `i` contexts have been moved to the larger table. */
  predicate MovedTo(slots: Slots, larger: Slots, i: nat) {
    |larger| == 2 * |slots| && 0 < |larger| && i <= |slots| &&
    (forall j :: 0 <= j < i ==> slots[j].Some? && larger[slots[j].value.handle % |larger|] == slots[j]) &&
    forall k :: 0 <= k < |larger| && larger[k].Some? ==>
      k % |slots| < i && larger[k] == slots[k % |slots|] && larger[k].value.handle % |larger| == k
  }

  /** The slot that a context moves to is still empty: the assertion of the source. */
  lemma MoveOne(slots: Slots, larger: Slots, i: nat)
    requires Placed(slots) && MovedTo(slots, larger, i) && i < |slots| && slots[i].Some?
    ensures
      var k := slots[i].value.handle % |larger|;
      larger[k] == None && MovedTo(slots, larger[k := slots[i]], i + 1)
  {
    var n := |slots|;
    var h := slots[i].value.handle;
    Halves(h, n);
    ModOfHalf(h % (2 * n), n);
  }

  lemma MovedSize(slots: Slots, larger: Slots, i: nat)
    requires MovedTo(slots, larger, i)
    ensures |larger| == 2 * |slots| && 0 < |larger| && forall j :: 0 <= j < i <= |slots| ==> slots[j].Some?
  {
  }

  lemma NoneMoved(slots: Slots, larger: Slots)
    requires |larger| == 2 * |slots| && 0 < |larger| && forall k :: 0 <= k < |larger| ==> larger[k] == None
    ensures MovedTo(slots, larger, 0)
  {
  }

  lemma AllMoved(slots: Slots, larger: Slots)
    requires Placed(slots) && MovedTo(slots, larger, |slots|)
    ensures Placed(larger) && Same(larger, slots)
    ensures |slots| > 1 ==> larger[1] == None || larger[1 + |slots|] == None
  {
    Spread(slots, larger);
  }

  /** The loop that moves the contexts to a table twice as large. Only the handle of a slot that holds a context can
      be read. */
  method Grow(slot: array<Option<Entry>>) returns (larger: array<Option<Entry>>, ok: bool)
    requires slot.Length > 0 && Placed(slot[..])
    ensures fresh(larger) && larger.Length == 2 * slot.Length
    ensures ok <==> forall i :: 0 <= i < slot.Length ==> slot[i].Some?
    ensures ok ==> Placed(larger[..]) && Same(larger[..], slot[..])
    ensures ok && slot.Length > 1 ==> larger[1] == None || larger[1 + slot.Length] == None
  {
    hide MovedTo, Placed, Same;
    var n := slot.Length;
    larger := new Option<Entry>[2 * n](_ => None);
    NoneMoved(slot[..], larger[..]);
    var i := 0;
    while i < n
      invariant 0 <= i <= n && MovedTo(slot[..], larger[..], i)
    {
      MovedSize(slot[..], larger[..], i);
      if slot[i] == None { return larger, false; }
      MoveOne(slot[..], larger[..], i);
      var k := slot[i].value.handle % (2 * n);
      ghost var before := larger[..];
      larger[k] := slot[i];
      assert larger[..] == before[k := slot[i]];
      i := i + 1;
    }
    MovedSize(slot[..], larger[..], n);
    AllMoved(slot[..], larger[..]);
    return larger, true;
  }

  // ----- the names -----

  type Text = seq<Byte>

  /** `struct handle_name` */
  datatype Name = Name(name: Text, handle: nat)

  predicate Ordered(names: seq<Name>) {
    forall i, j :: 0 <= i < j < |names| ==> Compare(names[i].name, names[j].name) < 0
  }

  /** The handle of a name. */
  function HandleOf(names: seq<Name>, name: Text): Option<nat> {
    if names == [] then None else if names[0].name == name then Some(names[0].handle) else HandleOf(names[1..], name)
  }

  lemma {:induction false} HandleIs(names: seq<Name>, name: Text, i: nat)
    requires Ordered(names) && i < |names| && names[i].name == name
    ensures HandleOf(names, name) == Some(names[i].handle)
  {
    if i > 0 {
      CompareEqual(names[0].name, names[i].name);
      HandleIs(names[1..], name, i - 1);
    }
  }

  lemma {:induction false} HandleNone(names: seq<Name>, name: Text)
    requires forall i :: 0 <= i < |names| ==> names[i].name != name
    ensures HandleOf(names, name) == None
  {
    if names != [] { HandleNone(names[1..], name); }
  }

  /** Where a name is, or where it would go. */
  predicate SearchedTo(names: seq<Name>, name: Text, begin: int, end: int) {
    0 <= begin <= end + 1 <= |names| &&
    (forall i :: 0 <= i < begin ==> Compare(names[i].name, name) < 0) &&
    forall i :: end < i < |names| ==> Compare(names[i].name, name) > 0
  }

  /** One comparison of the binary search. */
  lemma Narrow(names: seq<Name>, name: Text, begin: int, end: int, mid: int)
    requires Ordered(names) && SearchedTo(names, name, begin, end) && begin <= mid <= end
    ensures
      var c := Compare(names[mid].name, name);
      (c < 0 ==> SearchedTo(names, name, mid + 1, end)) && (c > 0 ==> SearchedTo(names, name, begin, mid - 1)) &&
      (c == 0 ==> names[mid].name == name)
  {
    CompareEqual(names[mid].name, name);
    CompareFlips(name, names[mid].name);
    CompareFlips(names[mid].name, name);
    forall i | 0 <= i < |names| && Compare(names[mid].name, name) != 0
      ensures i < mid && Compare(names[mid].name, name) < 0 ==> Compare(names[i].name, name) < 0
      ensures i > mid && Compare(names[mid].name, name) > 0 ==> Compare(names[i].name, name) > 0
    {
      if i < mid && Compare(names[mid].name, name) < 0 {
        CompareChains(names[i].name, names[mid].name, name);
      } else if i > mid && Compare(names[mid].name, name) > 0 {
        CompareChains(name, names[mid].name, names[i].name);
        CompareFlips(name, names[i].name);
      }
    }
  }

  lemma NotThere(names: seq<Name>, name: Text, begin: int)
    requires SearchedTo(names, name, begin, begin - 1)
    ensures HandleOf(names, name) == None
  {
    CompareEqual(name, name);
    HandleNone(names, name);
  }

  /** The binary search of `skynet_handle_findname` and `_insert_name`: where the name is, or where it has to go. */
  method Search(names: seq<Name>, name: Text) returns (found: bool, at: nat)
    requires Ordered(names)
    ensures found ==> at < |names| && names[at].name == name
    ensures !found ==> SearchedTo(names, name, at, at - 1) && HandleOf(names, name) == None
  {
    hide Ordered, SearchedTo;
    var begin, end := 0, |names| - 1;
    SearchStarts(names, name);
    while begin <= end
      invariant SearchedTo(names, name, begin, end)
      invariant 0 <= begin <= end + 1 <= |names|
      decreases end - begin + 1
    {
      var mid := (begin + end) / 2;
      Narrow(names, name, begin, end, mid);
      var c := Compare(names[mid].name, name);
      if c == 0 { return true, mid; }
      if c < 0 { begin := mid + 1; } else { end := mid - 1; }
    }
    NotThere(names, name, begin);
    return false, begin;
  }

  lemma SearchStarts(names: seq<Name>, name: Text)
    ensures SearchedTo(names, name, 0, |names| - 1)
  {
  }

  lemma PutOrdered(names: seq<Name>, x: Name, at: nat)
    requires Ordered(names) && SearchedTo(names, x.name, at, at - 1)
    ensures at <= |names| && Ordered(names[..at] + [x] + names[at..])
  {
    hide Compare;
    var more := names[..at] + [x] + names[at..];
    assert forall i :: 0 <= i < |more| ==> more[i] == if i < at then names[i] else if i == at then x else names[i - 1];
    forall i, j | 0 <= i < j < |more| ensures Compare(more[i].name, more[j].name) < 0 {
      if i == at { CompareFlips(x.name, more[j].name); }
    }
  }

  /** A name put in where it has to go. */
  lemma PutName(names: seq<Name>, x: Name, at: nat)
    requires Ordered(names) && at <= |names| && SearchedTo(names, x.name, at, at - 1)
    ensures
      var more := names[..at] + [x] + names[at..];
      Ordered(more) && HandleOf(more, x.name) == Some(x.handle) &&
      forall other :: other != x.name ==> HandleOf(more, other) == HandleOf(names, other)
  {
    hide Ordered, SearchedTo, HandleOf;
    var more := names[..at] + [x] + names[at..];
    PutOrdered(names, x, at);
    HandleIs(more, x.name, at);
    forall other | other != x.name ensures HandleOf(more, other) == HandleOf(names, other) {
      PutOther(names, x, at, other);
    }
  }

  lemma PutOther(names: seq<Name>, x: Name, at: nat, other: Text)
    requires at <= |names| && Ordered(names) && Ordered(names[..at] + [x] + names[at..]) && other != x.name
    ensures HandleOf(names[..at] + [x] + names[at..], other) == HandleOf(names, other)
  {
    hide Ordered, HandleOf;
    var more := names[..at] + [x] + names[at..];
    if i :| 0 <= i < |names| && names[i].name == other {
      HandleIs(names, other, i);
      HandleIs(more, other, if i < at then i else i + 1);
    } else {
      HandleNone(names, other);
      HandleNone(more, other);
    }
  }

  /** The loops of `_insert_name_before` for a full array. */
  method CopyNames(a: array<Name>, n: nat, before: nat, x: Name) returns (larger: array<Name>)
    requires before <= n == a.Length && 0 < n
    ensures fresh(larger) && larger.Length == 2 * n
    ensures (forall k :: 0 <= k < before ==> larger[k] == a[k]) && forall k :: before <= k < n ==> larger[k + 1] == a[k]
  {
    larger := new Name[2 * n](_ => x);
    var i := 0;
    while i < before
      invariant 0 <= i <= before && forall k :: 0 <= k < i ==> larger[k] == a[k]
    {
      larger[i] := a[i];
      i := i + 1;
    }
    while i < n
      invariant before <= i <= n && forall k :: 0 <= k < before ==> larger[k] == a[k]
      invariant forall k :: before <= k < i ==> larger[k + 1] == a[k]
    {
      larger[i + 1] := a[i];
      i := i + 1;
    }
  }

  /** The loop of `_insert_name_before` that makes room in place. */
  method ShiftNames(a: array<Name>, n: nat, before: nat)
    requires before <= n < a.Length
    modifies a
    ensures (forall k :: 0 <= k < before ==> a[k] == old(a[k])) && forall k :: before <= k < n ==> a[k + 1] == old(a[k])
  {
    var i := n;
    while i > before
      invariant before <= i <= n && forall k :: 0 <= k < i ==> a[k] == old(a[k])
      invariant forall k :: i <= k < n ==> a[k + 1] == old(a[k])
    {
      a[i] := a[i - 1];
      i := i - 1;
    }
  }

  /** The names of other handles. */
  function Others(names: seq<Name>, handle: nat): seq<Name> {
    if names == [] then []
    else
      var n := |names| - 1;
      Others(names[..n], handle) + if names[n].handle == handle then [] else [names[n]]
  }

  lemma OthersPush(names: seq<Name>, x: Name, handle: nat)
    ensures Others(names + [x], handle) == Others(names, handle) + if x.handle == handle then [] else [x]
  {
    var all := names + [x];
    assert all[..|all| - 1] == names;
  }

  lemma {:induction false} OthersAre(names: seq<Name>, handle: nat)
    ensures |Others(names, handle)| <= |names|
    ensures forall i :: 0 <= i < |Others(names, handle)| ==>
      Others(names, handle)[i].handle != handle && Others(names, handle)[i] in names
    ensures forall i :: 0 <= i < |names| && names[i].handle != handle ==> names[i] in Others(names, handle)
  {
    if names != [] { OthersAre(names[..|names| - 1], handle); }
  }

  lemma {:induction false} OthersOrdered(names: seq<Name>, handle: nat)
    requires Ordered(names)
    ensures Ordered(Others(names, handle))
  {
    if names != [] {
      var n := |names| - 1;
      OthersOrdered(names[..n], handle);
      OthersAre(names[..n], handle);
      var o := Others(names[..n], handle);
      forall i | 0 <= i < |o| ensures Compare(o[i].name, names[n].name) < 0 {
        assert o[i] in names[..n];
      }
    }
  }

  /** What a retired handle leaves of the names. */
  lemma OthersKept(names: seq<Name>, handle: nat, name: Text)
    requires Ordered(names)
    ensures HandleOf(Others(names, handle), name) ==
      if HandleOf(names, name) == Some(handle) then None else HandleOf(names, name)
  {
    var o := Others(names, handle);
    OthersAre(names, handle);
    OthersOrdered(names, handle);
    if i :| 0 <= i < |names| && names[i].name == name {
      HandleIs(names, name, i);
      if names[i].handle != handle {
        var j :| 0 <= j < |o| && o[j] == names[i];
        HandleIs(o, name, j);
      } else {
        forall j | 0 <= j < |o| ensures o[j].name != name {
          var k :| 0 <= k < |names| && names[k] == o[j];
          if k != i {
            CompareEqual(names[if k < i then k else i].name, names[if k < i then i else k].name);
          }
        }
        HandleNone(o, name);
      }
    } else {
      HandleNone(names, name);
      HandleNone(o, name);
    }
  }

  /** The handles that a table may hold: of this harbor, and never 0. */
  predicate Given(slots: Slots, harbor: nat) {
    forall i :: 0 <= i < |slots| && slots[i].Some? ==>
      slots[i].value.handle / HANDLES == harbor && slots[i].value.handle % HANDLES != 0
  }

  /** The handle of an empty slot is nobody's, and putting a context there changes nothing for other handles. */
  lemma PutSlot(slots: Slots, low: nat, harbor: nat, m: nat, ctx: nat)
    requires Placed(slots) && Given(slots, harbor) && 0 < low <= HANDLE_MASK && m * |slots| == HANDLES
    requires slots[low % |slots|] == None
    ensures
      var handle := low + harbor * HANDLES;
      var i := low % |slots|;
      var more := slots[i := Some(Entry(handle, ctx))];
      Lookup(slots, handle) == None && handle / HANDLES == harbor && handle % HANDLES == low &&
      Placed(more) && Given(more, harbor) &&
      forall h: nat :: Lookup(more, h) == if h == handle then Some(ctx) else Lookup(slots, h)
  {
    var handle := low + harbor * HANDLES;
    SameSlot(low, harbor, m, |slots|);
    SplitHandle(low, harbor);
    PutEntry(slots, low % |slots|, Entry(handle, ctx), harbor);
  }

  lemma SplitHandle(low: nat, harbor: nat)
    requires low <= HANDLE_MASK
    ensures var h := low + harbor * HANDLES; h / HANDLES == harbor && h % HANDLES == low
  {
  }

  /** The harbor does not matter for the slot. */
  lemma SameSlot(low: nat, harbor: nat, m: nat, n: nat)
    requires n > 0 && m * n == HANDLES
    ensures (low + harbor * HANDLES) % n == low % n
  {
    assert low == low / n * n + low % n;
    Distribute(low / n, harbor * m, n);
    Assoc(harbor, m, n);
    Residue(low + harbor * HANDLES, low / n + harbor * m, low % n, n);
  }

  lemma Assoc(a: nat, b: nat, c: nat)
    ensures a * b * c == a * (b * c)
  {
  }

  lemma PutEntry(slots: Slots, i: nat, x: Entry, harbor: nat)
    requires Placed(slots) && Given(slots, harbor) && i < |slots| && slots[i] == None && x.handle % |slots| == i
    requires x.handle / HANDLES == harbor && x.handle % HANDLES != 0
    ensures
      var more := slots[i := Some(x)];
      Lookup(slots, x.handle) == None && Placed(more) && Given(more, harbor) &&
      forall h: nat :: Lookup(more, h) == if h == x.handle then Some(x.ctx) else Lookup(slots, h)
  {
  }

  lemma TakeSlot(slots: Slots, handle: nat, harbor: nat)
    requires Placed(slots) && Given(slots, harbor) && Lookup(slots, handle).Some?
    ensures
      var less := slots[handle % |slots| := None];
      Placed(less) && Given(less, harbor) &&
      forall h: nat :: Lookup(less, h) == if h == handle then None else Lookup(slots, h)
  {
  }

  lemma GivenStays(slots: Slots, larger: Slots, harbor: nat)
    requires Given(slots, harbor) && Placed(slots) && Placed(larger) && Same(larger, slots)
    ensures Given(larger, harbor)
  {
    forall i | 0 <= i < |larger| && larger[i].Some?
      ensures larger[i].value.handle / HANDLES == harbor && larger[i].value.handle % HANDLES != 0
    {
      var h := larger[i].value.handle;
      assert Lookup(larger, h) == Lookup(slots, h);
    }
  }

  lemma Twice(n: nat, e: nat)
    requires Size(n, e) && 2 * n - 1 <= HANDLE_MASK
    ensures Size(2 * n, e + 1)
  {
    var m := SizeDivides(n, e);
    if e == 24 { TwoTo24(); }
  }

  lemma SizeIs(n: nat, e: nat)
    requires Size(n, e)
    ensures 4 <= n <= HANDLES
  {
    var m := SizeDivides(n, e);
  }

  lemma AllTaken(slots: Slots, b: nat)
    requires Taken(slots, b) && slots != []
    ensures (forall i :: 0 <= i < |slots| ==> slots[i].Some?) <==> slots[0].Some?
  {
  }

  lemma FreeSlot(slots: Slots, b: nat, handle: nat)
    requires FirstFree(slots, b, handle)
    ensures slots != [] && slots[handle % |slots|] == None
  {
  }

  lemma HasRoom(slots: Slots, b: nat)
    requires |slots| > 2 && (slots[1] == None || slots[1 + |slots| / 2] == None)
    ensures !Taken(slots, b)
  {
  }

  lemma SameIs(a: Slots, b: Slots)
    requires a != [] && b != [] && Same(a, b)
    ensures forall h: nat :: Lookup(a, h) == Lookup(b, h)
  {
  }

  /** `struct handle_storage` */
  class HandleStorage {
    const harbor: nat
    var handleIndex: nat
    var slot: array<Option<Entry>>
    ghost var e: nat
    var nameCount: nat
    var name: array<Name>

    ghost predicate Valid()
      reads this, slot, name
    {
      Size(slot.Length, e) && Placed(slot[..]) && Given(slot[..], harbor) && 0 < handleIndex <= HANDLES &&
      0 < name.Length && nameCount <= name.Length && Ordered(name[..nameCount])
    }

    ghost function Names(): seq<Name>
      requires nameCount <= name.Length
      reads this, name
    {
      name[..nameCount]
    }

    /** `skynet_handle_init` */
    constructor (harbor: nat)
      requires harbor < 256
      ensures Valid() && this.harbor == harbor && Names() == [] && fresh(slot) && fresh(name)
      ensures forall h: nat :: Lookup(slot[..], h) == None
      ensures handleIndex == 1 && slot[..] == [None, None, None, None]
    {
      this.harbor := harbor;
      handleIndex := 1;
      slot := new Option<Entry>[DEFAULT_SLOT_SIZE](_ => None);
      e := 2;
      nameCount := 0;
      name := new Name[2](_ => Name([], 0));
      assert Pow(2, 2) == 2 * Pow(2, 1) == 4 * Pow(2, 0);
    }

    /** `skynet_handle_register` */
    method Register(ctx: nat) returns (r: Registration)
      requires Valid()
      modifies this`handleIndex, this`slot, this`e, slot
      ensures Valid() && Names() == old(Names()) && (slot == old(slot) || fresh(slot))
      ensures r.Registered? ==>
        Lookup(old(slot[..]), r.handle) == None && r.handle / 0x100_0000 == harbor && r.handle % 0x100_0000 != 0 &&
        forall h: nat :: Lookup(slot[..], h) == if h == r.handle then Some(ctx) else Lookup(old(slot[..]), h)
      ensures r.Registered? ==>
        var low, n := r.handle % 0x100_0000, slot.Length;
        FirstFree(slot[..][low % n := None], Start(old(handleIndex)), low) && handleIndex == low + 1 &&
        n == (if Taken(old(slot[..]), Start(old(handleIndex))) then 2 else 1) * old(slot.Length) &&
        (n == old(slot.Length) ==> slot[..][low % n := None] == old(slot[..]) && slot[low % n].Some?)
      ensures !r.Registered? ==> slot == old(slot) && slot[..] == old(slot[..])
      ensures
        var full := Taken(old(slot[..]), Start(old(handleIndex)));
        (r.TooMany? <==> full && 2 * old(slot.Length) - 1 > 0xFF_FFFF) &&
        (r.NoContext? <==> full && 2 * old(slot.Length) - 1 <= 0xFF_FFFF && old(slot[0]) == None)
    {
      hide Size, Placed, Given, Lookup, Taken, Same, Ordered, FirstFree;
      SizeIs(slot.Length, e);
      ghost var was := slot[..];
      var found, handle := Scan(slot, handleIndex, e);
      if !found {
        AllTaken(was, Start(handleIndex));
        if slot.Length * 2 - 1 > HANDLE_MASK { return TooMany; }
        var larger, ok := Grow(slot);
        if !ok { return NoContext; }
        Twice(slot.Length, e);
        GivenStays(was, larger[..], harbor);
        SameIs(larger[..], was);
        slot, e := larger, e + 1;
        HasRoom(slot[..], Start(handleIndex));
        SizeIs(slot.Length, e);
        found, handle := Scan(slot, handleIndex, e);
      }
      FreeSlot(slot[..], Start(handleIndex), handle);
      r := Take(handle, ctx);
    }

    /** The slot of a handle is taken. */
    method Take(handle: nat, ctx: nat) returns (r: Registration)
      requires Valid() && 0 < handle <= HANDLE_MASK && slot.Length > 0 && slot[handle % slot.Length] == None
      modifies this`handleIndex, slot
      ensures Valid() && r.Registered?
      ensures Lookup(old(slot[..]), r.handle) == None && r.handle / HANDLES == harbor && r.handle % HANDLES != 0
      ensures forall h: nat :: Lookup(slot[..], h) == if h == r.handle then Some(ctx) else Lookup(old(slot[..]), h)
      ensures r.handle % HANDLES == handle && handleIndex == handle + 1
      ensures slot[handle % slot.Length].Some? && slot[..][handle % slot.Length := None] == old(slot[..])
    {
      hide Size, Placed, Given, Lookup, Ordered;
      ghost var was := slot[..];
      ghost var m := SizeDivides(slot.Length, e);
      PutSlot(slot[..], handle, harbor, m, ctx);
      slot[handle % slot.Length] := Some(Entry(handle + harbor * HANDLES, ctx));
      assert slot[..] == was[handle % slot.Length := Some(Entry(handle + harbor * HANDLES, ctx))];
      handleIndex := handle + 1;
      return Registered(handle + harbor * HANDLES);
    }

    /** `skynet_handle_grab`: what is registered under the handle. */
    method Grab(handle: nat) returns (ctx: Option<nat>)
      requires Valid()
      ensures ctx == Lookup(slot[..], handle)
    {
      SizeIs(slot.Length, e);
      var found := slot[handle % slot.Length];
      return if found.Some? && found.value.handle == handle then Some(found.value.ctx) else None;
    }

    /** `skynet_handle_retire`: the handle is free again, and its names are gone. */
    method Retire(handle: nat) returns (ctx: Option<nat>)
      requires Valid()
      modifies this`nameCount, slot, name
      ensures Valid() && ctx == Lookup(old(slot[..]), handle)
      ensures forall h: nat :: Lookup(slot[..], h) == if h == handle then None else Lookup(old(slot[..]), h)
      ensures slot.Length > 0 &&
        slot[..] == old(slot[..])[handle % slot.Length := if ctx.Some? then None else old(slot[handle % slot.Length])]
      ensures Names() == if ctx.Some? then Others(old(Names()), handle) else old(Names())
    {
      hide Size, Placed, Given, Ordered, Others;
      SizeIs(slot.Length, e);
      var hash := handle % slot.Length;
      var found := slot[hash];
      if found.None? || found.value.handle != handle { return None; }
      ghost var was := slot[..];
      TakeSlot(was, handle, harbor);
      OthersOrdered(Names(), handle);
      slot[hash] := None;
      assert slot[..] == was[hash := None];
      DropNames(handle);
      return Some(found.value.ctx);
    }

    /** The loop of `skynet_handle_retire` that closes the gaps of the names it drops. */
    method DropNames(handle: nat)
      requires nameCount <= name.Length
      modifies this`nameCount, name
      ensures nameCount <= name.Length && Names() == Others(old(Names()), handle)
    {
      hide Others;
      ghost var was := name[..];
      var i, j := 0, 0;
      NoOthers(was[..0], handle);
      while i < nameCount
        invariant 0 <= j <= i <= nameCount && nameCount == old(nameCount)
        invariant name[..j] == Others(was[..i], handle) && forall k :: i <= k < name.Length ==> name[k] == was[k]
      {
        assert was[..i + 1] == was[..i] + [was[i]];
        OthersPush(was[..i], was[i], handle);
        if name[i].handle != handle {
          ghost var done := name[..j];
          name[j] := name[i];
          assert name[..j + 1] == done + [was[i]];
          j := j + 1;
        }
        i := i + 1;
      }
      nameCount := j;
    }

    /** `skynet_handle_retireall`, when nobody registers meanwhile. */
    method RetireAll()
      requires Valid()
      modifies this`nameCount, slot, name
      ensures Valid() && forall h: nat :: Lookup(slot[..], h) == None
    {
      hide Size, Placed, Given, Ordered, Others;
      SizeIs(slot.Length, e);
      var i := 0;
      while i < slot.Length
        invariant 0 <= i <= slot.Length && Valid() && forall k :: 0 <= k < i ==> slot[k] == None
      {
        if slot[i].Some? {
          ghost var was := slot[..];
          var h := slot[i].value.handle;
          InPlace(was, i);
          var _ := Retire(h);
          OnlyOne(was, slot[..], i);
        }
        i := i + 1;
      }
    }

    /** `skynet_handle_findname`: 0 for an unknown name. */
    method FindName(n: Text) returns (handle: nat)
      requires Valid()
      ensures handle == match HandleOf(Names(), n) case None => 0 case Some(h) => h
    {
      var found, at := Search(name[..nameCount], n);
      if !found { return 0; }
      HandleIs(name[..nameCount], n, at);
      return name[at].handle;
    }

    /** `_insert_name_before` */
    method InsertBefore(x: Name, before: nat)
      requires before <= nameCount <= name.Length && 0 < name.Length
      modifies this`nameCount, this`name, name
      ensures nameCount <= name.Length && (name == old(name) || fresh(name)) && 0 < name.Length
      ensures Names() == old(Names())[..before] + [x] + old(Names())[before..]
    {
      var n, a := nameCount, name;
      ghost var was := a[..n];
      if n >= a.Length { a := CopyNames(a, n, before, x); } else { ShiftNames(a, n, before); }
      a[before] := x;
      Inserted(a[..n + 1], was, x, before);
      name, nameCount := a, n + 1;
    }

    /** `skynet_handle_namehandle`: whether the name is new. */
    method NameHandle(handle: nat, n: Text) returns (ok: bool)
      requires Valid()
      modifies this`nameCount, this`name, name
      ensures Valid() && slot == old(slot) && slot[..] == old(slot[..]) && (name == old(name) || fresh(name))
      ensures ok <==> HandleOf(old(Names()), n) == None
      ensures HandleOf(Names(), n) == Some(if ok then handle else HandleOf(old(Names()), n).value)
      ensures forall other :: other != n ==> HandleOf(Names(), other) == HandleOf(old(Names()), other)
    {
      hide Size, Placed, Given, Ordered, SearchedTo;
      var found, at := Search(name[..nameCount], n);
      if found {
        HandleIs(name[..nameCount], n, at);
        return false;
      }
      SearchedIn(Names(), n, at);
      PutName(Names(), Name(n, handle), at);
      InsertBefore(Name(n, handle), at);
      return true;
    }
  }

  lemma Inserted(now: seq<Name>, was: seq<Name>, x: Name, before: nat)
    requires before <= |was| && |now| == |was| + 1 && now[before] == x
    requires forall k :: 0 <= k < before ==> now[k] == was[k]
    requires forall k :: before <= k < |was| ==> now[k + 1] == was[k]
    ensures now == was[..before] + [x] + was[before..]
  {
    forall k | 0 <= k < |now| ensures now[k] == (was[..before] + [x] + was[before..])[k] {
      if k > before { assert now[(k - 1) + 1] == was[k - 1]; }
    }
  }

  lemma SearchedIn(names: seq<Name>, n: Text, at: nat)
    requires SearchedTo(names, n, at, at - 1)
    ensures at <= |names|
  {
  }

  lemma NoOthers(names: seq<Name>, handle: nat)
    requires names == []
    ensures Others(names, handle) == []
  {
  }

  lemma InPlace(slots: Slots, i: nat)
    requires Placed(slots) && i < |slots| && slots[i].Some?
    ensures Lookup(slots, slots[i].value.handle) == Some(slots[i].value.ctx)
  {
  }

  /** A slot is empty when its handle is retired, and what was empty stays so. */
  lemma OnlyOne(was: Slots, slots: Slots, i: nat)
    requires Placed(was) && Placed(slots) && |slots| == |was| && i < |was| && was[i].Some?
    requires forall h: nat :: Lookup(slots, h) == if h == was[i].value.handle then None else Lookup(was, h)
    ensures slots[i] == None && forall k :: 0 <= k < |was| && was[k] == None ==> slots[k] == None
  {
    forall k | 0 <= k < |was| && (k == i || was[k] == None) ensures slots[k] == None {
      if slots[k].Some? { InPlace(slots, k); }
    }
  }

  /** Three contexts stay and the first slot is free. */
  predicate Churned(slots: Slots) {
    |slots| == 4 && slots[0] == None && slots[1].Some? && slots[2].Some? && slots[3].Some?
  }

  /** The next context goes to the first slot, with the next multiple of four as its handle. */
  lemma NextChurn(slots: Slots, index: nat, k: nat, handle: nat)
    requires Churned(slots) && 4 * k < index <= 4 * k + 4 <= HANDLE_MASK && FirstFree(slots, Start(index), handle)
    ensures handle == 4 * k + 4
  {
  }

  lemma ChurnFree(slots: Slots, index: nat, k: nat)
    requires Churned(slots) && 4 * k < index <= 4 * k + 4 <= HANDLE_MASK
    ensures !Taken(slots, Start(index))
  {
  }

  /** Three contexts for a new table. */
  method Settle(s: HandleStorage)
    requires s.Valid() && s.handleIndex == 1 && s.slot[..] == [None, None, None, None]
    modifies s, s.slot, s.name
    ensures s.Valid() && s.handleIndex == 4 && Churned(s.slot[..])
    ensures (s.slot == old(s.slot) || fresh(s.slot)) && s.name == old(s.name)
  {
    hide Size, Placed, Given, Lookup, Ordered;
    var r: Registration;
    for i := 0 to 3
      invariant s.Valid() && s.handleIndex == i + 1 && s.slot.Length == 4 && s.name == old(s.name)
      invariant s.slot == old(s.slot) || fresh(s.slot)
      invariant forall k :: 0 <= k < 4 ==> (s.slot[k].Some? <==> 1 <= k <= i)
    {
      ghost var was := s.slot[..];
      assert was[i + 1] == None;
      r := s.Register(i);
      Settles(was, i + 1, r.handle % HANDLES);
      assert forall k :: 0 <= k < 4 && k != i + 1 ==> s.slot[k] == s.slot[..][i + 1 := None][k];
    }
  }

  lemma Settles(slots: Slots, index: nat, handle: nat)
    requires |slots| == 4 && 1 <= index < 4 && slots[index] == None && FirstFree(slots, Start(index), handle)
    ensures handle == index && handle % 4 == index
  {
    assert Probe(index, 0) == index && index % 4 == index;
  }

  /** A context that comes and goes. */
  method Churn(s: HandleStorage, k: nat)
    requires s.Valid() && Churned(s.slot[..]) && 4 * k < s.handleIndex <= 4 * k + 4 <= HANDLE_MASK
    modifies s, s.slot, s.name
    ensures s.Valid() && Churned(s.slot[..]) && s.handleIndex == 4 * k + 5
    ensures (s.slot == old(s.slot) || fresh(s.slot)) && s.name == old(s.name)
  {
    hide Size, Placed, Given, Lookup, Ordered, FirstFree, Taken;
    ghost var was, index := s.slot[..], s.handleIndex;
    ChurnFree(was, index, k);
    var r := s.Register(k);
    NextChurn(was, index, k, r.handle % HANDLES);
    SlotOfHandle(r.handle, k);
    ghost var full := s.slot[..];
    assert forall i :: 0 < i < 4 ==> full[i] == full[0 := None][i];
    var _ := s.Retire(r.handle);
  }

  lemma SlotOfHandle(handle: nat, k: nat)
    requires handle % HANDLES == 4 * k + 4
    ensures handle % 4 == 0 && (4 * k + 4) % 4 == 0
  {
  }

  /** From the start: three contexts stay, and one context after the other is registered and retired. Then the table is
      not full, but the search passes the last handle, never tries the first slot, and the table grows. */
  method LateGrowth(harbor: nat) returns (registrations: nat, r: Registration)
    requires harbor < 256
    ensures registrations == 0x40_0003 && r == NoContext
  {
    hide Size, Placed, Given, Lookup, Ordered, FirstFree;
    var s := new HandleStorage(harbor);
    Settle(s);
    registrations := 3;
    var k := 0;
    while k < 0x3F_FFFF
      invariant 0 <= k <= 0x3F_FFFF && registrations == 3 + k
      invariant fresh(s) && fresh(s.slot) && fresh(s.name) && s.Valid() && Churned(s.slot[..])
      invariant s.handleIndex == if k == 0 then 4 else 4 * k + 1
    {
      Churn(s, k);
      registrations := registrations + 1;
      k := k + 1;
    }
    r := s.Register(0);
    registrations := registrations + 1;
  }
}
