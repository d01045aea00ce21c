/** The buffers of lua-seri.c: the list of 128-byte blocks that packing fills, and the cursor of unpacking. */
module SeriBlocks {
  import opened Common
  import opened Seri

  const BLOCK_SIZE := 128

  /** The bytes of a list of full blocks. */
  function Flat(blocks: seq<seq<Byte>>): seq<Byte> {
    if blocks == [] then [] else Flat(blocks[..|blocks| - 1]) + blocks[|blocks| - 1]
  }

  lemma FlatPush(blocks: seq<seq<Byte>>, b: seq<Byte>)
    ensures Flat(blocks + [b]) == Flat(blocks) + b
  {
    assert (blocks + [b])[..|blocks|] == blocks;
  }

  lemma {:induction false} FlatLength(blocks: seq<seq<Byte>>)
    requires forall b <- blocks :: |b| == BLOCK_SIZE
    ensures |Flat(blocks)| == BLOCK_SIZE * |blocks|
  {
    if blocks != [] { FlatLength(blocks[..|blocks| - 1]); }
  }

  /** The bytes in a list of blocks of which the last is filled up to `ptr`. */
  predicate Holds(blocks: seq<seq<Byte>>, ptr: int, bytes: seq<Byte>) {
    blocks != [] && 0 <= ptr <= BLOCK_SIZE && (forall b <- blocks :: |b| == BLOCK_SIZE) &&
    bytes == Flat(blocks[..|blocks| - 1]) + blocks[|blocks| - 1][..ptr]
  }

  lemma CopyHolds(blocks: seq<seq<Byte>>, ptr: int, bytes: seq<Byte>, buf: seq<Byte>)
    requires Holds(blocks, ptr, bytes) && ptr + |buf| <= BLOCK_SIZE
    ensures
      var k := |blocks| - 1;
      var b := blocks[k];
      |b| == BLOCK_SIZE && Holds(blocks[k := b[..ptr] + buf + b[ptr + |buf|..]], ptr + |buf|, bytes + buf)
  {
    var k := |blocks| - 1;
    var b := blocks[k];
    assert b in blocks;
    var b' := b[..ptr] + buf + b[ptr + |buf|..];
    var blocks' := blocks[k := b'];
    assert blocks'[..k] == blocks[..k];
    assert b'[..ptr + |buf|] == b[..ptr] + buf;
    forall c | c in blocks' ensures |c| == BLOCK_SIZE {
      if c != b' { assert c in blocks; }
    }
  }

  lemma NewHolds(blocks: seq<seq<Byte>>, bytes: seq<Byte>, b: seq<Byte>)
    requires Holds(blocks, BLOCK_SIZE, bytes) && |b| == BLOCK_SIZE
    ensures Holds(blocks + [b], 0, bytes)
  {
    var k := |blocks| - 1;
    FlatPush(blocks[..k], blocks[k]);
    assert blocks[..k] + [blocks[k]] == blocks;
    assert blocks[k] in blocks;
    assert (blocks + [b])[..k + 1] == blocks;
  }

  /** `struct write_block`: the linked blocks from `head` on, of which the last is `current`.
      `bytes` is all that has been pushed. */
  class WriteBlock {
    var blocks: seq<seq<Byte>>
    var len: int
    var ptr: int
    ghost var bytes: seq<Byte>

    ghost predicate Valid()
      reads this
    {
      Holds(blocks, ptr, bytes) && len == |bytes|
    }

    /** `wb_init` */
    constructor (first: seq<Byte>)
      requires |first| == BLOCK_SIZE
      ensures Valid() && bytes == []
    {
      blocks, len, ptr, bytes := [first], 0, 0, [];
    }

    /** `memcpy` into the current block. */
    method Copy(buf: seq<Byte>)
      requires Valid() && ptr + |buf| <= BLOCK_SIZE
      modifies this
      ensures Valid() && bytes == old(bytes) + buf && ptr == old(ptr) + |buf|
    {
      CopyHolds(blocks, ptr, bytes, buf);
      var k := |blocks| - 1;
      var b := blocks[k];
      blocks := blocks[k := b[..ptr] + buf + b[ptr + |buf|..]];
      ptr, len, bytes := ptr + |buf|, len + |buf|, bytes + buf;
    }

    /** A new block becomes the current one; what `malloc` leaves in it does not matter. */
    method NewBlock()
      requires Valid() && ptr == BLOCK_SIZE
      modifies this
      ensures Valid() && bytes == old(bytes) && ptr == 0
    {
      var b: seq<Byte> := seq(BLOCK_SIZE, _ => 0);
      NewHolds(blocks, bytes, b);
      blocks := blocks + [b];
      ptr := 0;
    }

    /** `wb_push`, splitting what does not fit the current block. */
    method Push(buf: seq<Byte>)
      requires Valid()
      modifies this
      ensures Valid() && bytes == old(bytes) + buf
    {
      InBlock();
      hide Valid;
      var rest := buf;
      if ptr == BLOCK_SIZE { NewBlock(); }
      while ptr > BLOCK_SIZE - |rest|
        invariant Valid() && bytes + rest == old(bytes) + buf && 0 <= ptr < BLOCK_SIZE
        decreases |rest|
      {
        var copy := BLOCK_SIZE - ptr;
        assert rest == rest[..copy] + rest[copy..];
        Copy(rest[..copy]);
        rest := rest[copy..];
        NewBlock();
      }
      Copy(rest);
    }

    lemma InBlock()
      requires Valid()
      ensures 0 <= ptr <= BLOCK_SIZE
    {
    }

    /** `wb_integer` */
    method PushInteger(i: int)
      requires Valid()
      modifies this
      ensures Valid() && bytes == old(bytes) + EncodeInt(i)
    {
      hide Valid, ToBytes, Combine;
      if i == 0 {
        Push([Combine(TYPE_NUMBER, NUMBER_ZERO)]);
      } else if i != Signed(i % W32, W32) {
        Push([Combine(TYPE_NUMBER, NUMBER_QWORD)]);
        Push(ToBytes(i % W64, 8));
      } else if i < 0 {
        Push([Combine(TYPE_NUMBER, NUMBER_DWORD)]);
        Push(ToBytes(i % W32, 4));
      } else if i < 0x100 {
        Push([Combine(TYPE_NUMBER, NUMBER_BYTE)]);
        Push(ToBytes(i, 1));
      } else if i < 0x10000 {
        Push([Combine(TYPE_NUMBER, NUMBER_WORD)]);
        Push(ToBytes(i, 2));
      } else {
        Push([Combine(TYPE_NUMBER, NUMBER_DWORD)]);
        Push(ToBytes(i, 4));
      }
    }

    /** `wb_string` */
    method PushString(s: seq<Byte>)
      requires Valid()
      modifies this
      ensures Valid() && bytes == old(bytes) + EncodeStr(s)
    {
      hide Valid, ToBytes, Combine, EncodeStr, StrHead;
      StrIs(s);
      ghost var head, b := StrHead(|s|), bytes;
      Assoc(b, head, s);
      if |s| < MAX_COOKIE {
        Push([Combine(TYPE_SHORT_STRING, |s|)]);
        assert s == [] ==> bytes == bytes + s;
        if |s| > 0 { Push(s); }
      } else {
        if |s| < 0x10000 {
          Push([Combine(TYPE_LONG_STRING, 2)]);
          Push(ToBytes(|s|, 2));
          Assoc(b, [Combine(TYPE_LONG_STRING, 2)], ToBytes(|s|, 2));
        } else {
          Push([Combine(TYPE_LONG_STRING, 4)]);
          Push(ToBytes(|s| % W32, 4));
          Assoc(b, [Combine(TYPE_LONG_STRING, 4)], ToBytes(|s| % W32, 4));
        }
        Push(s);
      }
    }

    /** `pack_one`: writes the value, or gives up where it is nested too deeply. */
    method PackOne(v: Value, depth: nat) returns (ok: bool)
      requires Valid()
      modifies this
      ensures ok <==> depth + Level(v) <= 32
      ensures ok ==> Valid() && bytes == old(bytes) + Encode(v)
      decreases v, 1
    {
      hide Valid, Combine, EncodeInt, EncodeStr;
      if depth > MAX_DEPTH { return false; }
      ok := true;
      match v
      case Nil => Push([TYPE_NIL]);
      case Bool(b) => Push([Combine(TYPE_BOOLEAN, if b then 1 else 0)]);
      case Int(i) => PushInteger(i);
      case Real(bits) => Push([Combine(TYPE_NUMBER, NUMBER_REAL)]); Push(bits);
      case Ptr(bits) => Push([TYPE_USERDATA]); Push(bits);
      case Str(s) => PushString(s);
      case Table(arr, hash) => ok := PackTable(arr, hash, depth + 1);
    }

    /** The head of a table. */
    method PushSize(n: nat)
      requires Valid()
      modifies this
      ensures Valid() && bytes == old(bytes) + EncodeSize(n)
    {
      hide EncodeInt, EncodeSize, Valid, Combine;
      SizeIs(n);
      if n >= MAX_COOKIE - 1 {
        Push([Combine(TYPE_TABLE, MAX_COOKIE - 1)]);
        PushInteger(n);
      } else {
        Push([Combine(TYPE_TABLE, n)]);
      }
    }

    /** `wb_table`: the head, the array elements, the other pairs and the nil that ends them. */
    method PackTable(arr: List, hash: Pairs, depth: nat) returns (ok: bool)
      requires Valid() && 0 < depth <= MAX_DEPTH + 1
      modifies this
      ensures ok <==> depth - 1 + Max(LevelList(arr), LevelPairs(hash)) <= MAX_DEPTH
      ensures ok ==> Valid() && bytes == old(bytes) + Encode(Table(arr, hash))
      decreases Table(arr, hash), 0
    {
      hide Encode, Level, LevelList, LevelPairs, EncodeInt, EncodeSize, EncodeList, EncodePairs, Valid, Combine;
      EncodeTable(arr, hash);
      PushSize(Length(arr));
      ok := PackList(arr, depth);
      if ok { ok := PackPairs(hash, depth); }
    }

    /** The loop of `wb_table_array`. */
    method PackList(l: List, depth: nat) returns (ok: bool)
      requires Valid() && 0 < depth <= MAX_DEPTH + 1
      modifies this
      ensures ok <==> depth - 1 + LevelList(l) <= MAX_DEPTH
      ensures ok ==> Valid() && bytes == old(bytes) + EncodeList(l)
      decreases l, 0
    {
      hide Encode, Level, Valid;
      ok := true;
      if l.Item? {
        ok := PackOne(l.head, depth);
        if ok { ok := PackList(l.tail, depth); }
      } else {
        assert bytes + [] == bytes;
      }
    }

    /** The loop of `wb_table_hash`, for the pairs outside the array part. */
    method PackPairs(p: Pairs, depth: nat) returns (ok: bool)
      requires Valid() && 0 < depth <= MAX_DEPTH + 1
      modifies this
      ensures ok <==> depth - 1 + LevelPairs(p) <= MAX_DEPTH
      ensures ok ==> Valid() && bytes == old(bytes) + EncodePairs(p)
      decreases p, 0
    {
      hide Encode, Level, Valid;
      ok := true;
      if p.Pair? {
        ok := PackOne(p.k, depth);
        if ok { ok := PackOne(p.v, depth); }
        if ok { ok := PackPairs(p.rest, depth); }
      } else {
        Push([TYPE_NIL]);
      }
    }
  }

  /** What comes before the bytes of a string. */
  function StrHead(n: nat): seq<Byte> {
    if n < MAX_COOKIE then [Combine(TYPE_SHORT_STRING, n)]
    else if n < W16 then [Combine(TYPE_LONG_STRING, 2)] + ToBytes(n, 2)
    else [Combine(TYPE_LONG_STRING, 4)] + ToBytes(n % W32, 4)
  }

  lemma StrIs(s: seq<Byte>)
    ensures EncodeStr(s) == StrHead(|s|) + s
    ensures StrHead(|s|) ==
      if |s| < MAX_COOKIE then [Combine(TYPE_SHORT_STRING, |s|)]
      else if |s| < W16 then [Combine(TYPE_LONG_STRING, 2)] + ToBytes(|s|, 2)
      else [Combine(TYPE_LONG_STRING, 4)] + ToBytes(|s| % W32, 4)
  {
  }

  lemma SizeIs(n: nat)
    ensures EncodeSize(n) ==
      if n >= MAX_COOKIE - 1 then [Combine(TYPE_TABLE, MAX_COOKIE - 1)] + EncodeInt(n) else [Combine(TYPE_TABLE, n)]
  {
  }

  /** `seri`: the blocks copied into one buffer. */
  method Flatten(wb: WriteBlock) returns (buffer: seq<Byte>)
    requires wb.Valid()
    ensures buffer == wb.bytes
  {
    buffer := FlattenBlocks(wb.blocks, wb.len, wb.ptr, wb.bytes);
  }

  method FlattenBlocks(blocks: seq<seq<Byte>>, len0: int, ghost ptr: int, ghost bytes: seq<Byte>)
    returns (buffer: seq<Byte>)
    requires Holds(blocks, ptr, bytes) && len0 == |bytes|
    ensures buffer == bytes
  {
    buffer := [];
    var len, i := len0, 0;
    BlockCount(blocks, ptr, bytes);
    while len > 0
      invariant 0 <= i <= |blocks| && buffer == Flat(blocks[..i]) && len == len0 - BLOCK_SIZE * i && len >= 0
      invariant i == |blocks| ==> ptr == BLOCK_SIZE
      decreases len
    {
      var b := blocks[i];
      assert b in blocks;
      BlocksStep(blocks, i);
      if len >= BLOCK_SIZE {
        buffer := buffer + b;
        i, len := i + 1, len - BLOCK_SIZE;
      } else {
        buffer := buffer + b[..len];
        return;
      }
    }
    AllFlat(blocks, ptr, bytes, i);
  }

  lemma BlocksStep(blocks: seq<seq<Byte>>, i: nat)
    requires i < |blocks|
    ensures Flat(blocks[..i + 1]) == Flat(blocks[..i]) + blocks[i]
  {
    assert blocks[..i + 1] == blocks[..i] + [blocks[i]];
    FlatPush(blocks[..i], blocks[i]);
  }

  /** When the length is used up at a block boundary everything has been copied. */
  lemma AllFlat(blocks: seq<seq<Byte>>, ptr: int, bytes: seq<Byte>, i: nat)
    requires Holds(blocks, ptr, bytes) && i <= |blocks| && |bytes| == BLOCK_SIZE * i
    ensures Flat(blocks[..i]) == bytes
  {
    var k := |blocks| - 1;
    BlockCount(blocks, ptr, bytes);
    if i == |blocks| {
      BlocksStep(blocks, k);
      assert blocks[k] in blocks;
      assert blocks[k][..BLOCK_SIZE] == blocks[k];
    } else {
      assert blocks[k][..0] == [];
    }
  }

  /** All blocks but the last are full. */
  lemma BlockCount(blocks: seq<seq<Byte>>, ptr: int, bytes: seq<Byte>)
    requires Holds(blocks, ptr, bytes)
    ensures |bytes| == BLOCK_SIZE * (|blocks| - 1) + ptr
  {
    var k := |blocks| - 1;
    assert blocks[k] in blocks;
    forall b | b in blocks[..k] ensures |b| == BLOCK_SIZE { assert b in blocks; }
    FlatLength(blocks[..k]);
  }

  /** `luaseri_pack` */
  method Pack(vs: seq<Value>, first: seq<Byte>) returns (r: Read<seq<Byte>>)
    requires |first| == BLOCK_SIZE
    ensures (forall i :: 0 <= i < |vs| ==> Level(vs[i]) <= 32) ==> r == Got(EncodeAll(vs), [])
    ensures !(forall i :: 0 <= i < |vs| ==> Level(vs[i]) <= 32) ==> r == Bad
  {
    hide Encode, Level, WriteBlock.Valid;
    var wb := new WriteBlock(first);
    var i := 0;
    while i < |vs|
      invariant 0 <= i <= |vs| && fresh(wb) && wb.Valid() && wb.bytes == EncodeAll(vs[..i])
      invariant forall j :: 0 <= j < i ==> Level(vs[j]) <= MAX_DEPTH
    {
      var ok := wb.PackOne(vs[i], 0);
      if !ok { return Bad; }
      assert vs[..i + 1][..i] == vs[..i];
      i := i + 1;
    }
    assert vs[..i] == vs;
    var buffer := Flatten(wb);
    r := Got(buffer, []);
  }

  /** What a method that reads has to do with the function that says what is read: the value, and the rest
      of the bytes as the new rest of the cursor; or an error, after which the cursor does not matter. */
  predicate Agrees<T(==)>(r: Read<T>, spec: Read<T>, rest: seq<Byte>) {
    match spec
    case Bad => r.Bad?
    case Got(v, rest') => r.Got? && r.value == v && rest == rest'
  }

  /** `struct read_block` */
  class ReadBlock {
    const buffer: seq<Byte>
    var len: int
    var ptr: int

    ghost predicate Valid()
      reads this
    {
      0 <= ptr && 0 <= len && ptr + len == |buffer|
    }

    /** What has not been read. */
    ghost function Rest(): seq<Byte>
      requires Valid()
      reads this
    {
      buffer[ptr..]
    }

    /** `rball_init` */
    constructor (bytes: seq<Byte>)
      ensures Valid() && Rest() == bytes
    {
      buffer := bytes;
      len, ptr := |bytes|, 0;
    }

    /** `rb_read` */
    method ReadBytes(n: nat) returns (r: Read<seq<Byte>>)
      requires Valid()
      modifies this
      ensures Valid() && Agrees(r, Take(old(Rest()), n), Rest())
    {
      if len < n { return Bad; }
      var p := ptr;
      ptr, len := ptr + n, len - n;
      r := Got(buffer[p..p + n], []);
      assert buffer[p..][..n] == buffer[p..p + n] && buffer[p..][n..] == buffer[p + n..];
    }

    /** `get_integer` */
    method ReadInt(cookie: nat) returns (r: Read<int>)
      requires Valid()
      modifies this
      ensures Valid() && Agrees(r, GetInt(old(Rest()), cookie), Rest())
    {
      hide Valid, Take, FromBytes, Signed;
      if cookie == NUMBER_ZERO { return Got(0, []); }
      if cookie != NUMBER_BYTE && cookie != NUMBER_WORD && cookie != NUMBER_DWORD && cookie != NUMBER_QWORD {
        return Bad;
      }
      var n :=
        if cookie == NUMBER_BYTE then 1
        else if cookie == NUMBER_WORD then 2
        else if cookie == NUMBER_DWORD then 4
        else 8;
      var b := ReadBytes(n);
      if b.Bad? { return Bad; }
      var w := if n == 8 then W64 else if n == 4 then W32 else 2 * W16;
      r := Got(Signed(FromBytes(b.value), w), []);
    }

    /** `get_buffer` */
    method ReadStr(n: nat) returns (r: Read<Value>)
      requires Valid()
      modifies this
      ensures Valid() && Agrees(r, GetStr(old(Rest()), n), Rest())
    {
      hide Valid, Take;
      var b := ReadBytes(n);
      r := if b.Bad? then Bad else Got(Str(b.value), []);
    }

    /** `push_value` */
    method PushValue(t: nat, cookie: nat) returns (r: Read<Value>)
      requires Valid()
      modifies this
      ensures Valid() && Agrees(r, GetValue(old(Rest()), t, cookie), Rest())
      decreases |Rest()|, 3
    {
      hide Valid, Rest, Take, GetInt, GetStr, FromBytes, GetSize, GetList, GetPairs;
      if t == TYPE_NIL {
        r := Got(Nil, []);
      } else if t == TYPE_BOOLEAN {
        r := Got(Bool(cookie != 0), []);
      } else if t == TYPE_NUMBER && cookie != NUMBER_REAL {
        var i := ReadInt(cookie);
        r := if i.Bad? then Bad else Got(Int(i.value), []);
      } else if t == TYPE_NUMBER || t == TYPE_USERDATA {
        var b := ReadBytes(8);
        r := if b.Bad? then Bad else if t == TYPE_NUMBER then Got(Real(b.value), []) else Got(Ptr(b.value), []);
      } else if t == TYPE_SHORT_STRING {
        r := ReadStr(cookie);
      } else if t == TYPE_LONG_STRING {
        if cookie != 2 && cookie != 4 { return Bad; }
        var b := ReadBytes(cookie);
        if b.Bad? { return Bad; }
        r := ReadStr(FromBytes(b.value));
      } else if t == TYPE_TABLE {
        r := UnpackTable(cookie);
      } else {
        r := Bad;
      }
    }

    /** The head of a table. */
    method ReadSize(cookie: nat) returns (r: Read<int>)
      requires Valid()
      modifies this
      ensures Valid() && Agrees(r, GetSize(old(Rest()), cookie), Rest())
    {
      hide Valid, Take, GetInt, Signed;
      if cookie != MAX_COOKIE - 1 { return Got(cookie, []); }
      var b := ReadBytes(1);
      ReadOneByte(old(Rest()));
      if b.Bad? { return Bad; }
      var t := b.value[0];
      if t % 8 != TYPE_NUMBER || t / 8 == NUMBER_REAL { return Bad; }
      var n := ReadInt(t / 8);
      r := if n.Bad? then Bad else Got(Signed(n.value % W32, W32), []);
    }

    /** `unpack_table` */
    method UnpackTable(cookie: nat) returns (r: Read<Value>)
      requires Valid()
      modifies this
      ensures Valid() && Agrees(r, GetTableSpec(old(Rest()), cookie), Rest())
      decreases |Rest()|, 2, 1
    {
      hide Valid, Rest, GetSize, GetList, GetPairs;
      ghost var s := Rest();
      var n := ReadSize(cookie);
      if n.Bad? { return Bad; }
      var arr := UnpackList(n.value);
      if arr.Bad? { return Bad; }
      var hash := UnpackPairs();
      r := if hash.Bad? then Bad else Got(Table(arr.value, hash.value), []);
    }

    /** The loop over the array part. */
    method UnpackList(n: int) returns (r: Read<List>)
      requires Valid()
      modifies this
      ensures Valid() && Agrees(r, GetList(old(Rest()), n), Rest())
      decreases |Rest()|, 2, 0, n
    {
      hide Valid, Rest, GetOne;
      if n <= 0 { return Got(Empty, []); }
      var v := UnpackOne();
      if v.Bad? { return Bad; }
      var l := UnpackList(n - 1);
      r := if l.Bad? then Bad else Got(Item(v.value, l.value), []);
    }

    /** The loop over the other pairs. */
    method UnpackPairs() returns (r: Read<Pairs>)
      requires Valid()
      modifies this
      ensures Valid() && Agrees(r, GetPairs(old(Rest())), Rest())
      decreases |Rest()|, 2, 0
    {
      hide Valid, Rest, GetOne;
      var k := UnpackOne();
      if k.Bad? { return Bad; }
      if k.value.Nil? { return Got(Done, []); }
      var v := UnpackOne();
      if v.Bad? { return Bad; }
      var p := UnpackPairs();
      r := if p.Bad? then Bad else Got(Pair(k.value, v.value, p.value), []);
    }

    /** `unpack_one` */
    method UnpackOne() returns (r: Read<Value>)
      requires Valid()
      modifies this
      ensures Valid() && Agrees(r, GetOne(old(Rest())), Rest())
      decreases |Rest()|, 0
    {
      hide Valid, Rest, Take, GetValue;
      ReadOneByte(Rest());
      var b := ReadBytes(1);
      if b.Bad? { return Bad; }
      r := PushValue(b.value[0] % 8, b.value[0] / 8);
    }
  }

  function GetTableSpec(s: seq<Byte>, cookie: nat): Read<Value> { GetValue(s, TYPE_TABLE, cookie) }

  lemma ReadOneByte(s: seq<Byte>)
    ensures s == [] ==> Take(s, 1) == Bad
    ensures s != [] ==> Take(s, 1) == Got([s[0]], s[1..])
  {
    if s != [] { assert s[..1] == [s[0]]; }
  }

  /** `luaseri_unpack` */
  method Unpack(bytes: seq<Byte>) returns (r: Read<seq<Value>>)
    ensures r == GetAll(bytes)
  {
    hide ReadBlock.Rest, GetOne, GetAll, Prepend;
    var rb := new ReadBlock(bytes);
    var vs: seq<Value> := [];
    AllFrom(bytes);
    while rb.len > 0
      invariant fresh(rb) && rb.Valid()
      invariant GetAll(bytes) == Prepend(vs, GetAll(rb.Rest()))
      decreases |rb.Rest()|
    {
      RestIs(rb);
      AllNext(vs, rb.Rest());
      var v := rb.UnpackOne();
      if v.Bad? { return Bad; }
      vs := vs + [v.value];
    }
    RestIs(rb);
    AllNext(vs, rb.Rest());
    r := Got(vs, []);
  }

  function Prepend(vs: seq<Value>, r: Read<seq<Value>>): Read<seq<Value>> {
    match r
    case Bad => Bad
    case Got(ws, rest) => Got(vs + ws, rest)
  }

  lemma AllFrom(s: seq<Byte>)
    ensures Prepend([], GetAll(s)) == GetAll(s)
  {
    var r := GetAll(s);
    if r.Got? { assert [] + r.value == r.value; }
  }

  /** One more value of a message. */
  lemma AllNext(vs: seq<Value>, s: seq<Byte>)
    ensures s == [] ==> Prepend(vs, GetAll(s)) == Got(vs, [])
    ensures s != [] ==>
      match GetOne(s)
      case Bad => Prepend(vs, GetAll(s)) == Bad
      case Got(v, rest) => Prepend(vs, GetAll(s)) == Prepend(vs + [v], GetAll(rest))
  {
    hide GetOne;
    assert vs + [] == vs;
    if s != [] && GetOne(s).Got? {
      var r := GetAll(GetOne(s).rest);
      if r.Got? { assert vs + [GetOne(s).value] + r.value == vs + ([GetOne(s).value] + r.value); }
    }
  }

  lemma RestIs(rb: ReadBlock)
    requires rb.Valid()
    ensures rb.len == |rb.Rest()|
  {
  }

  /** What is packed is what is unpacked, for any list of values that can be packed. */
  method PackAndUnpack(vs: seq<Value>, first: seq<Byte>) returns (r: Read<seq<Value>>)
    requires |first| == BLOCK_SIZE && AllPackable(vs) && forall i :: 0 <= i < |vs| ==> Level(vs[i]) <= 32
    ensures r == Got(vs, [])
  {
    var bytes := Pack(vs, first);
    AllBack(vs);
    r := Unpack(bytes.value);
  }
}
