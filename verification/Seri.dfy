/** The value serializer of lua-seri.c: what it writes for a value, what it reads, and that reading undoes writing. */
module Seri {
  import opened Common

  const TYPE_NIL := 0
  const TYPE_BOOLEAN := 1
  const TYPE_NUMBER := 2
  const TYPE_USERDATA := 3
  const TYPE_SHORT_STRING := 4
  const TYPE_LONG_STRING := 5
  const TYPE_TABLE := 6

  const NUMBER_ZERO := 0
  const NUMBER_BYTE := 1
  const NUMBER_WORD := 2
  const NUMBER_DWORD := 4
  const NUMBER_QWORD := 6
  const NUMBER_REAL := 8

  const MAX_COOKIE := 32
  const MAX_DEPTH := 32

  const W16 := 0x1_0000
  const W32 := 0x1_0000_0000
  const W64 := 0x1_0000_0000_0000_0000

  /** A Lua value; floats and light userdata are their eight bytes. A table is its array part and the other
      pairs in the order in which they are walked. */
  datatype Value =
    | Nil
    | Bool(b: bool)
    | Int(i: int)
    | Real(bits: seq<Byte>)
    | Ptr(bits: seq<Byte>)
    | Str(s: seq<Byte>)
    | Table(arr: List, hash: Pairs)

  datatype List = Empty | Item(head: Value, tail: List)
  datatype Pairs = Done | Pair(k: Value, v: Value, rest: Pairs)

  function Length(l: List): nat { if l.Empty? then 0 else 1 + Length(l.tail) }

  /** What the representation of the source can hold. */
  predicate Packable(v: Value) {
    match v
    case Nil => true
    case Bool(_) => true
    case Int(i) => -(W64 / 2) <= i < W64 / 2
    case Real(bits) => |bits| == 8
    case Ptr(bits) => |bits| == 8
    case Str(s) => |s| < W32 / 2
    case Table(arr, hash) => Length(arr) < W32 / 2 && PackableList(arr) && PackablePairs(hash)
  }

  predicate PackableList(l: List) { l.Item? ==> Packable(l.head) && PackableList(l.tail) }

  predicate PackablePairs(p: Pairs) {
    p.Pair? ==> !p.k.Nil? && Packable(p.k) && Packable(p.v) && PackablePairs(p.rest)
  }

  /** The largest depth with which `pack_one` is called below a value at depth 0. */
  function Level(v: Value): nat {
    if v.Table? then Max(LevelList(v.arr), LevelPairs(v.hash)) else 0
  }

  function LevelList(l: List): nat { if l.Empty? then 0 else Max(1 + Level(l.head), LevelList(l.tail)) }

  function LevelPairs(p: Pairs): nat {
    if p.Done? then 0 else Max(Max(1 + Level(p.k), 1 + Level(p.v)), LevelPairs(p.rest))
  }

  // ----- numbers -----

  /** A number of `w` values read as a signed one. */
  function Signed(x: nat, w: nat): int { if 2 * x >= w then x - w else x }

  function Combine(t: nat, v: nat): (b: Byte)
    requires t < 8 && v < 32
    ensures b % 8 == t && b / 8 == v
  {
    t + 8 * v
  }

  /** `wb_integer` */
  function EncodeInt(i: int): seq<Byte> {
    if i == 0 then [Combine(TYPE_NUMBER, NUMBER_ZERO)]
    else if !(-(W32 / 2) <= i < W32 / 2) then [Combine(TYPE_NUMBER, NUMBER_QWORD)] + ToBytes(i % W64, 8)
    else if i < 0 then [Combine(TYPE_NUMBER, NUMBER_DWORD)] + ToBytes(i % W32, 4)
    else if i < 0x100 then [Combine(TYPE_NUMBER, NUMBER_BYTE)] + ToBytes(i, 1)
    else if i < W16 then [Combine(TYPE_NUMBER, NUMBER_WORD)] + ToBytes(i, 2)
    else [Combine(TYPE_NUMBER, NUMBER_DWORD)] + ToBytes(i, 4)
  }

  /** `wb_string` */
  function EncodeStr(s: seq<Byte>): seq<Byte> {
    if |s| < MAX_COOKIE then [Combine(TYPE_SHORT_STRING, |s|)] + s
    else if |s| < W16 then [Combine(TYPE_LONG_STRING, 2)] + ToBytes(|s|, 2) + s
    else [Combine(TYPE_LONG_STRING, 4)] + ToBytes(|s| % W32, 4) + s
  }

  /** The head of a table with `n` array elements. */
  function EncodeSize(n: nat): seq<Byte> {
    if n >= MAX_COOKIE - 1 then [Combine(TYPE_TABLE, MAX_COOKIE - 1)] + EncodeInt(n) else [Combine(TYPE_TABLE, n)]
  }

  /** `pack_one` */
  function Encode(v: Value): seq<Byte> {
    match v
    case Nil => [TYPE_NIL]
    case Bool(b) => [Combine(TYPE_BOOLEAN, if b then 1 else 0)]
    case Int(i) => EncodeInt(i)
    case Real(bits) => [Combine(TYPE_NUMBER, NUMBER_REAL)] + bits
    case Ptr(bits) => [TYPE_USERDATA] + bits
    case Str(s) => EncodeStr(s)
    case Table(arr, hash) => EncodeSize(Length(arr)) + EncodeList(arr) + EncodePairs(hash)
  }

  function EncodeList(l: List): seq<Byte> { if l.Empty? then [] else Encode(l.head) + EncodeList(l.tail) }

  /** The other pairs, and the nil that ends them. */
  function EncodePairs(p: Pairs): seq<Byte> {
    if p.Done? then [TYPE_NIL] else Encode(p.k) + Encode(p.v) + EncodePairs(p.rest)
  }

  // ----- reading -----

  datatype Read<+T> = Bad | Got(value: T, rest: seq<Byte>)

  /** `rb_read` */
  function Take(s: seq<Byte>, n: nat): (r: Read<seq<Byte>>)
    ensures r.Got? ==> |r.value| == n && s == r.value + r.rest
  {
    if |s| < n then Bad else Got(s[..n], s[n..])
  }

  /** `get_integer` */
  function GetInt(s: seq<Byte>, cookie: nat): (r: Read<int>)
    ensures r.Got? ==> |r.rest| <= |s|
  {
    if cookie == NUMBER_ZERO then Got(0, s)
    else if cookie == NUMBER_BYTE then Number(Take(s, 1), 2 * W16)
    else if cookie == NUMBER_WORD then Number(Take(s, 2), 2 * W16)
    else if cookie == NUMBER_DWORD then Number(Take(s, 4), W32)
    else if cookie == NUMBER_QWORD then Number(Take(s, 8), W64)
    else Bad
  }

  function Number(r: Read<seq<Byte>>, w: nat): Read<int> {
    match r
    case Bad => Bad
    case Got(bytes, rest) => Got(Signed(FromBytes(bytes), w), rest)
  }

  function GetStr(s: seq<Byte>, n: nat): (r: Read<Value>)
    ensures r.Got? ==> |r.rest| <= |s|
  {
    match Take(s, n)
    case Bad => Bad
    case Got(bytes, rest) => Got(Str(bytes), rest)
  }

  function GetLong(s: seq<Byte>, width: nat): (r: Read<Value>)
    ensures r.Got? ==> |r.rest| <= |s|
  {
    match Take(s, width)
    case Bad => Bad
    case Got(bytes, rest) => GetStr(rest, FromBytes(bytes))
  }

  /** The array size of a table head; the source keeps it in an `int`. */
  function GetSize(s: seq<Byte>, cookie: nat): (r: Read<int>)
    ensures r.Got? ==> |r.rest| <= |s|
  {
    if cookie != MAX_COOKIE - 1 then Got(cookie, s)
    else if s == [] then Bad
    else if s[0] % 8 != TYPE_NUMBER || s[0] / 8 == NUMBER_REAL then Bad
    else
      match GetInt(s[1..], s[0] / 8)
      case Bad => Bad
      case Got(n, rest) => Got(Signed(n % W32, W32), rest)
  }

  /** `push_value` */
  function GetValue(s: seq<Byte>, t: nat, cookie: nat): (r: Read<Value>)
    ensures r.Got? ==> |r.rest| <= |s|
    decreases |s|, 3
  {
    if t == TYPE_NIL then Got(Nil, s)
    else if t == TYPE_BOOLEAN then Got(Bool(cookie != 0), s)
    else if t == TYPE_NUMBER then
      if cookie == NUMBER_REAL then
        match Take(s, 8)
        case Bad => Bad
        case Got(bits, rest) => Got(Real(bits), rest)
      else
        match GetInt(s, cookie)
        case Bad => Bad
        case Got(i, rest) => Got(Int(i), rest)
    else if t == TYPE_USERDATA then
      match Take(s, 8)
      case Bad => Bad
      case Got(bits, rest) => Got(Ptr(bits), rest)
    else if t == TYPE_SHORT_STRING then GetStr(s, cookie)
    else if t == TYPE_LONG_STRING then
      if cookie == 2 || cookie == 4 then GetLong(s, cookie) else Bad
    else if t == TYPE_TABLE then
      match GetSize(s, cookie)
      case Bad => Bad
      case Got(n, rest) =>
        match GetList(rest, n)
        case Bad => Bad
        case Got(arr, rest2) =>
          match GetPairs(rest2)
          case Bad => Bad
          case Got(hash, rest3) => Got(Table(arr, hash), rest3)
    else Bad
  }

  /** `unpack_one` */
  function GetOne(s: seq<Byte>): (r: Read<Value>)
    ensures r.Got? ==> |r.rest| < |s|
    decreases |s|, 0
  {
    if s == [] then Bad else GetValue(s[1..], s[0] % 8, s[0] / 8)
  }

  /** The first loop of `unpack_table`. */
  function GetList(s: seq<Byte>, n: int): (r: Read<List>)
    ensures r.Got? ==> |r.rest| <= |s|
    decreases |s|, 2, n
  {
    if n <= 0 then Got(Empty, s)
    else
      match GetOne(s)
      case Bad => Bad
      case Got(v, rest) =>
        match GetList(rest, n - 1)
        case Bad => Bad
        case Got(l, rest2) => Got(Item(v, l), rest2)
  }

  /** The second loop of `unpack_table`. */
  function GetPairs(s: seq<Byte>): (r: Read<Pairs>)
    ensures r.Got? ==> |r.rest| <= |s|
    decreases |s|, 2
  {
    match GetOne(s)
    case Bad => Bad
    case Got(k, rest) =>
      if k.Nil? then Got(Done, rest)
      else
        match GetOne(rest)
        case Bad => Bad
        case Got(v, rest2) =>
          match GetPairs(rest2)
          case Bad => Bad
          case Got(p, rest3) => Got(Pair(k, v, p), rest3)
  }

  // ----- reading undoes writing -----

  lemma TakeBack(a: seq<Byte>, rest: seq<Byte>)
    ensures Take(a + rest, |a|) == Got(a, rest)
  {
    assert (a + rest)[..|a|] == a && (a + rest)[|a|..] == rest;
  }

  lemma Wraps(i: int, w: nat)
    requires w > 0 && w % 2 == 0 && -(w / 2) <= i < w / 2
    ensures 0 <= i % w < w && Signed(i % w, w) == i
  {
    if i < 0 { assert i % w == i + w by { Modulus(i, w); } } else { assert i % w == i by { Modulus(i, w); } }
  }

  lemma Modulus(i: int, w: int)
    requires w > 0 && -w <= i < w
    ensures i % w == if i < 0 && i != -w then i + w else if i == -w then 0 else i
  {
    if i == -w { assert i == -1 * w + 0; }
    else if i < 0 { assert i == -1 * w + (i + w); }
  }

  /** A number written with `n` bytes is read back. */
  lemma NumberBack(i: int, n: nat, w: nat, rest: seq<Byte>)
    requires 0 <= i < Pow(256, n) && 2 * i < w
    ensures Number(Take(ToBytes(i, n) + rest, n), w) == Got(i, rest)
  {
    TakeBack(ToBytes(i, n), rest);
    BytesBack(i, n);
  }

  lemma SignedBack(i: int, n: nat, w: nat, rest: seq<Byte>)
    requires w == Pow(256, n) && w % 2 == 0 && -(w / 2) <= i < w / 2
    ensures 0 <= i % w && Number(Take(ToBytes(i % w, n) + rest, n), w) == Got(i, rest)
  {
    Wraps(i, w);
    TakeBack(ToBytes(i % w, n), rest);
    BytesBack(i % w, n);
  }

  /** The width that the writer chooses loses nothing. */
  lemma IntBack(i: int, rest: seq<Byte>)
    requires -(W64 / 2) <= i < W64 / 2
    ensures
      var s := EncodeInt(i) + rest;
      s[0] % 8 == TYPE_NUMBER && s[0] / 8 < NUMBER_REAL && GetInt(s[1..], s[0] / 8) == Got(i, rest)
  {
    ByteWidths();
    var s := EncodeInt(i) + rest;
    hide Pow, ToBytes, Number, Take, Signed;
    if i == 0 {
      assert s[1..] == rest;
    } else if !(-(W32 / 2) <= i < W32 / 2) {
      assert s[1..] == ToBytes(i % W64, 8) + rest;
      SignedBack(i, 8, W64, rest);
    } else if i < 0 {
      assert s[1..] == ToBytes(i % W32, 4) + rest;
      SignedBack(i, 4, W32, rest);
    } else if i < 0x100 {
      assert s[1..] == ToBytes(i, 1) + rest;
      NumberBack(i, 1, 2 * W16, rest);
    } else if i < W16 {
      assert s[1..] == ToBytes(i, 2) + rest;
      NumberBack(i, 2, 2 * W16, rest);
    } else {
      assert s[1..] == ToBytes(i, 4) + rest;
      NumberBack(i, 4, W32, rest);
    }
  }

  lemma ShortBack(x: seq<Byte>, rest: seq<Byte>)
    requires |x| < MAX_COOKIE
    ensures
      var s := [Combine(TYPE_SHORT_STRING, |x|)] + x + rest;
      GetValue(s[1..], s[0] % 8, s[0] / 8) == Got(Str(x), rest)
  {
    TakeBack(x, rest);
    var s := [Combine(TYPE_SHORT_STRING, |x|)] + x + rest;
    assert s[1..] == x + rest;
    assert GetStr(x + rest, |x|) == Got(Str(x), rest);
    hide GetStr, Take;
  }

  lemma LongTaken(x: seq<Byte>, n: nat, rest: seq<Byte>)
    requires |x| < Pow(256, n)
    ensures GetLong(ToBytes(|x|, n) + (x + rest), n) == Got(Str(x), rest)
  {
    hide ToBytes, FromBytes, Pow, Take;
    TakeBack(ToBytes(|x|, n), x + rest);
    TakeBack(x, rest);
    BytesBack(|x|, n);
  }

  lemma LongBack(x: seq<Byte>, n: nat, rest: seq<Byte>)
    requires (n == 2 || n == 4) && |x| < Pow(256, n)
    ensures
      var s := [Combine(TYPE_LONG_STRING, n)] + ToBytes(|x|, n) + x + rest;
      GetValue(s[1..], s[0] % 8, s[0] / 8) == Got(Str(x), rest)
  {
    hide ToBytes, FromBytes, Pow, Take, GetLong, Combine;
    LongTaken(x, n, rest);
    Behind(Combine(TYPE_LONG_STRING, n), ToBytes(|x|, n), x, rest);
  }

  lemma Behind(b: Byte, l: seq<Byte>, x: seq<Byte>, rest: seq<Byte>)
    ensures
      var s := [b] + l + x + rest;
      s[0] == b && s[1..] == l + (x + rest)
  {
  }

  lemma StrBack(x: seq<Byte>, rest: seq<Byte>)
    requires |x| < W32 / 2
    ensures
      var s := EncodeStr(x) + rest;
      GetValue(s[1..], s[0] % 8, s[0] / 8) == Got(Str(x), rest)
  {
    hide GetValue, ToBytes, Pow, Combine;
    ByteWidths();
    if |x| < MAX_COOKIE {
      ShortBack(x, rest);
    } else {
      assert |x| % W32 == |x|;
      LongBack(x, if |x| < W16 then 2 else 4, rest);
    }
  }

  lemma SmallSize(n: nat)
    requires n < W32 / 2
    ensures Signed(n % W32, W32) == n
  {
    Wraps(n, W32);
  }

  lemma SizeBack(n: nat, rest: seq<Byte>)
    requires n < W32 / 2
    ensures
      var s := EncodeSize(n) + rest;
      s[0] % 8 == TYPE_TABLE && GetSize(s[1..], s[0] / 8) == Got(n, rest)
  {
    hide GetInt, EncodeInt, Signed;
    var s := EncodeSize(n) + rest;
    if n >= MAX_COOKIE - 1 {
      IntBack(n, rest);
      IntNotEmpty(n);
      SmallSize(n);
      assert s[1..] == EncodeInt(n) + rest;
    } else {
      assert s[1..] == rest;
    }
  }

  lemma IntNotEmpty(i: int)
    ensures EncodeInt(i) != []
  {
  }

  /** Reading what was written for a value gives the value and leaves what follows. */
  lemma {:induction false} RoundTrip(v: Value, rest: seq<Byte>)
    requires Packable(v)
    ensures GetOne(Encode(v) + rest) == Got(v, rest)
    decreases v, 1
  {
    var s := Encode(v) + rest;
    match v
    case Nil => assert s[1..] == rest;
    case Bool(_) => assert s[1..] == rest;
    case Int(i) => IntBack(i, rest); hide EncodeInt, GetInt;
    case Real(bits) => assert s[1..] == bits + rest; TakeBack(bits, rest);
    case Ptr(bits) => assert s[1..] == bits + rest; TakeBack(bits, rest);
    case Str(x) => StrBack(x, rest); hide EncodeStr, GetValue;
    case Table(arr, hash) => TableBack(arr, hash, rest);
  }

  lemma {:induction false} TableBack(arr: List, hash: Pairs, rest: seq<Byte>)
    requires Packable(Table(arr, hash))
    ensures GetOne(Encode(Table(arr, hash)) + rest) == Got(Table(arr, hash), rest)
    decreases Table(arr, hash), 0
  {
    hide *;
    var a, p := EncodeList(arr), EncodePairs(hash);
    var s := Encode(Table(arr, hash)) + rest;
    PackableParts(arr, hash);
    EncodeParts(arr, hash, rest);
    SizeBack(Length(arr), a + (p + rest));
    ListBack(arr, p + rest);
    PairsBack(hash, rest);
    GetTable(s, Length(arr), a + (p + rest), arr, p + rest, hash, rest);
  }

  lemma GetTable(s: seq<Byte>, n: nat, rest: seq<Byte>, arr: List, rest2: seq<Byte>, hash: Pairs, rest3: seq<Byte>)
    requires s != [] && s[0] % 8 == TYPE_TABLE && GetSize(s[1..], s[0] / 8) == Got(n, rest)
    requires GetList(rest, n) == Got(arr, rest2) && GetPairs(rest2) == Got(hash, rest3)
    ensures GetOne(s) == Got(Table(arr, hash), rest3)
  {
    hide GetSize, GetList, GetPairs;
  }

  lemma PackableParts(arr: List, hash: Pairs)
    requires Packable(Table(arr, hash))
    ensures Length(arr) < W32 / 2 && PackableList(arr) && PackablePairs(hash)
  {
  }

  lemma EncodeParts(arr: List, hash: Pairs, rest: seq<Byte>)
    ensures Encode(Table(arr, hash)) + rest == EncodeSize(Length(arr)) + (EncodeList(arr) + (EncodePairs(hash) + rest))
    ensures EncodeSize(Length(arr)) != []
  {
    EncodeTable(arr, hash);
    SizeNotEmpty(Length(arr));
    hide *;
    Regroup(EncodeSize(Length(arr)), EncodeList(arr), EncodePairs(hash), rest);
  }

  lemma EncodeTable(arr: List, hash: Pairs)
    ensures Encode(Table(arr, hash)) == EncodeSize(Length(arr)) + EncodeList(arr) + EncodePairs(hash)
  {
  }

  lemma Regroup(a: seq<Byte>, b: seq<Byte>, c: seq<Byte>, d: seq<Byte>)
    ensures a + b + c + d == a + (b + (c + d))
  {
  }

  lemma SizeNotEmpty(n: nat)
    ensures EncodeSize(n) != []
  {
  }

  lemma DonePairs(rest: seq<Byte>)
    ensures GetPairs([TYPE_NIL] + rest) == Got(Done, rest)
  {
    var s := [TYPE_NIL] + rest;
    assert s[1..] == rest;
    assert GetValue(rest, 0, 0) == Got(Nil, rest);
    assert GetOne(s) == Got(Nil, rest);
  }

  lemma {:induction false} ListBack(l: List, rest: seq<Byte>)
    requires PackableList(l)
    ensures GetList(EncodeList(l) + rest, Length(l)) == Got(l, rest)
    decreases l
  {
    if l.Item? {
      assert EncodeList(l) + rest == Encode(l.head) + (EncodeList(l.tail) + rest);
      RoundTrip(l.head, EncodeList(l.tail) + rest);
      ListBack(l.tail, rest);
      hide Encode, GetOne;
    } else {
      assert [] + rest == rest;
    }
  }

  lemma {:induction false} PairsBack(p: Pairs, rest: seq<Byte>)
    requires PackablePairs(p)
    ensures GetPairs(EncodePairs(p) + rest) == Got(p, rest)
    decreases p
  {
    if p.Pair? {
      var tail := EncodePairs(p.rest) + rest;
      assert EncodePairs(p) + rest == Encode(p.k) + (Encode(p.v) + tail);
      RoundTrip(p.k, Encode(p.v) + tail);
      RoundTrip(p.v, tail);
      PairsBack(p.rest, rest);
      hide Encode, GetOne;
    } else {
      DonePairs(rest);
    }
  }

  // ----- whole messages -----

  predicate AllPackable(vs: seq<Value>) { forall i :: 0 <= i < |vs| ==> Packable(vs[i]) }

  /** `pack_from` */
  function EncodeAll(vs: seq<Value>): seq<Byte> {
    if vs == [] then [] else EncodeAll(vs[..|vs| - 1]) + Encode(vs[|vs| - 1])
  }

  /** The loop of `luaseri_unpack`: values until the bytes are used up. */
  function GetAll(s: seq<Byte>): (r: Read<seq<Value>>)
    decreases |s|
  {
    if s == [] then Got([], [])
    else
      match GetOne(s)
      case Bad => Bad
      case Got(v, rest) =>
        match GetAll(rest)
        case Bad => Bad
        case Got(vs, _) => Got([v] + vs, [])
  }

  lemma EncodeAllLast(vs: seq<Value>, v: Value)
    ensures EncodeAll(vs + [v]) == EncodeAll(vs) + Encode(v) && EncodeAll([]) == []
  {
    assert (vs + [v])[..|vs|] == vs;
    hide Encode;
  }

  lemma {:induction false} EncodeAllCons(v: Value, vs: seq<Value>)
    ensures EncodeAll([v] + vs) == Encode(v) + EncodeAll(vs)
    decreases |vs|
  {
    hide EncodeAll, Encode;
    EncodeAllLast([], v);
    if vs == [] {
      assert [v] + vs == [] + [v];
    } else {
      var n := |vs| - 1;
      assert [v] + vs == ([v] + vs[..n]) + [vs[n]] && vs == vs[..n] + [vs[n]];
      EncodeAllCons(v, vs[..n]);
      EncodeAllLast([v] + vs[..n], vs[n]);
      EncodeAllLast(vs[..n], vs[n]);
      Assoc(Encode(v), EncodeAll(vs[..n]), Encode(vs[n]));
    }
  }

  lemma Assoc(a: seq<Byte>, b: seq<Byte>, c: seq<Byte>)
    ensures a + b + c == a + (b + c)
  {
  }

  /** Unpacking the packed form of any list of values gives the list. */
  lemma {:induction false} AllBack(vs: seq<Value>)
    requires AllPackable(vs)
    ensures GetAll(EncodeAll(vs)) == Got(vs, [])
    decreases |vs|
  {
    if vs != [] {
      assert vs == [vs[0]] + vs[1..];
      EncodeAllCons(vs[0], vs[1..]);
      RoundTrip(vs[0], EncodeAll(vs[1..]));
      AllBack(vs[1..]);
      hide Encode, GetOne, EncodeAll;
    }
  }
}
