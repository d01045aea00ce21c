/** JSON as lua_cjson.c writes and reads it: the text of a value, the tokens of a text, and what is parsed. */
module JsonText {
  import opened Common

  const QUOTE := 34
  const COMMA := 44
  const SLASH := 47
  const COLON := 58
  const ARR_BEGIN := 91
  const BACKSLASH := 92
  const ARR_END := 93
  const OBJ_BEGIN := 123
  const OBJ_END := 125

  const TRUE: seq<Byte> := [116, 114, 117, 101]
  const FALSE: seq<Byte> := [102, 97, 108, 115, 101]
  const NULL: seq<Byte> := [110, 117, 108, 108]

  const MAX_DEPTH := 1000
  const SPARSE_RATIO := 2
  const SPARSE_SAFE := 10

  /** A Lua value without numbers. `Nil` is a hole of an array, `Null` the pointer that stands for null; an object is
      the sequence of its assignments. */
  datatype Value =
    | Nil
    | Null
    | Bool(b: bool)
    | Str(s: seq<Byte>)
    | Arr(items: List)
    | Obj(fields: Fields)

  datatype List = Empty | Item(head: Value, tail: List)
  datatype Fields = Done | Field(key: seq<Byte>, v: Value, rest: Fields)

  // ----- strings -----

  function HexChar(d: nat): Byte
    requires d < 16
  {
    if d < 10 then 48 + d else 87 + d
  }

  /** `char2escape` */
  function Escape(b: Byte): Option<seq<Byte>> {
    if b == 8 then Some([BACKSLASH, 98])
    else if b == 9 then Some([BACKSLASH, 116])
    else if b == 10 then Some([BACKSLASH, 110])
    else if b == 12 then Some([BACKSLASH, 102])
    else if b == 13 then Some([BACKSLASH, 114])
    else if b == QUOTE || b == SLASH || b == BACKSLASH then Some([BACKSLASH, b])
    else if b < 32 || b == 127 then Some([BACKSLASH, 117, 48, 48, HexChar(b / 16), HexChar(b % 16)])
    else None
  }

  function EscapeOne(b: Byte): (r: seq<Byte>)
    ensures 0 < |r| <= 6
  {
    if Escape(b).Some? then Escape(b).value else [b]
  }

  function EscapeAll(s: seq<Byte>): seq<Byte> { if s == [] then [] else EscapeOne(s[0]) + EscapeAll(s[1..]) }

  /** `json_append_string` */
  function Quoted(s: seq<Byte>): seq<Byte> { [QUOTE] + EscapeAll(s) + [QUOTE] }

  // ----- the text of a value -----

  function Length(l: List): nat { if l.Empty? then 0 else 1 + Length(l.tail) }

  function Count(l: List): nat { if l.Empty? then 0 else (if l.head.Nil? then 0 else 1) + Count(l.tail) }

  /** Too many holes, with the limits that are set by default. */
  predicate Sparse(l: List) { Length(l) > Count(l) * SPARSE_RATIO && Length(l) > SPARSE_SAFE }

  /** `json_append_data` in a table of depth `depth`: the text, or nothing if the value cannot be serialised. */
  function Text(v: Value, depth: nat): Option<seq<Byte>> {
    match v
    case Nil => Some(NULL)
    case Null => Some(NULL)
    case Bool(b) => Some(if b then TRUE else FALSE)
    case Str(s) => Some(Quoted(s))
    case Arr(items) =>
      if depth + 1 > MAX_DEPTH || Sparse(items) then None else Around(ARR_BEGIN, ItemsText(items, depth + 1), ARR_END)
    case Obj(fields) =>
      if depth + 1 > MAX_DEPTH then None else Around(OBJ_BEGIN, FieldsText(fields, depth + 1), OBJ_END)
  }

  function Around(a: Byte, t: Option<seq<Byte>>, b: Byte): Option<seq<Byte>> {
    if t == None then None else Some([a] + t.value + [b])
  }

  function Join(a: Option<seq<Byte>>, b: Option<seq<Byte>>): Option<seq<Byte>> {
    if a == None || b == None then None else Some(a.value + b.value)
  }

  function ItemsText(l: List, depth: nat): Option<seq<Byte>> {
    if l.Empty? then Some([])
    else if l.tail.Empty? then Text(l.head, depth)
    else Join(Text(l.head, depth), Join(Some([COMMA]), ItemsText(l.tail, depth)))
  }

  function FieldsText(f: Fields, depth: nat): Option<seq<Byte>> {
    if f.Done? then Some([])
    else
      var one := Join(Some(Quoted(f.key) + [COLON]), Text(f.v, depth));
      if f.rest.Done? then one else Join(one, Join(Some([COMMA]), FieldsText(f.rest, depth)))
  }

  // ----- reading strings -----

  datatype Read<+T> = Bad | Got(value: T, rest: seq<Byte>)

  /** The byte at a place of a text that ends with a zero. */
  function At(s: seq<Byte>, k: nat): Byte { if k < |s| then s[k] else 0 }

  /** `hexdigit2int` */
  function HexDigit(b: Byte): (d: int)
    ensures -1 <= d < 16 && (d >= 0 ==> b != 0)
  {
    if 48 <= b <= 57 then b - 48
    else
      var c := if b / 32 % 2 == 0 then b + 32 else b;
      if 97 <= c <= 102 then 10 + c - 97 else -1
  }

  /** `decode_hex4` */
  function Hex4(s: seq<Byte>, k: nat): (r: int)
    ensures -1 <= r < 0x1_0000 && (r >= 0 ==> k + 4 <= |s|)
  {
    var a, b, c, d := HexDigit(At(s, k)), HexDigit(At(s, k + 1)), HexDigit(At(s, k + 2)), HexDigit(At(s, k + 3));
    if a < 0 || b < 0 || c < 0 || d < 0 then -1 else a * 0x1000 + b * 0x100 + c * 0x10 + d
  }

  /** `codepoint_to_utf8`, for what a pair of escapes can give. */
  function Utf8(c: nat): (r: seq<Byte>)
    requires c < 0x11_0000
    ensures 1 <= |r| <= (if c < 0x1_0000 then 3 else 4)
  {
    if c <= 0x7F then [c]
    else if c <= 0x7FF then [c / 64 + 0xC0, c % 64 + 0x80]
    else if c <= 0xFFFF then [c / 4096 + 0xE0, c / 64 % 64 + 0x80, c % 64 + 0x80]
    else [c / 0x4_0000 + 0xF0, c / 4096 % 64 + 0x80, c / 64 % 64 + 0x80, c % 64 + 0x80]
  }

  /** `json_append_unicode_escape`, at the backslash. */
  function GetUnicode(s: seq<Byte>): (r: Read<seq<Byte>>)
    ensures r.Got? ==> |r.rest| < |s| && |r.value| < |s| - |r.rest|
  {
    var c := Hex4(s, 2);
    if c < 0 then Bad
    else if c / 0x800 != 0x1B then Got(Utf8(c), s[6..])
    else if c / 0x400 % 2 != 0 then Bad
    else if At(s, 6) != BACKSLASH || At(s, 7) != 117 then Bad
    else
      var low := Hex4(s, 8);
      if low < 0 || low / 0x400 != 0x37 then Bad
      else Got(Utf8(c % 0x400 * 0x400 + low % 0x400 + 0x1_0000), s[12..])
  }

  /** `escape2char` */
  function Unescape(b: Byte): Byte {
    if b == QUOTE || b == BACKSLASH || b == SLASH then b
    else if b == 98 then 8
    else if b == 116 then 9
    else if b == 110 then 10
    else if b == 102 then 12
    else if b == 114 then 13
    else if b == 117 then 117
    else 0
  }

  /** The loop of `json_next_string_token`, behind the opening quote. What is decoded is shorter than what is read. */
  function GetChars(s: seq<Byte>): (r: Read<seq<Byte>>)
    ensures r.Got? ==> |r.rest| < |s| && |r.value| < |s| - |r.rest|
    decreases |s|
  {
    var c := At(s, 0);
    if c == QUOTE then Got([], s[1..])
    else if c == 0 then Bad
    else if c == BACKSLASH then
      var e := Unescape(At(s, 1));
      if e == 117 then
        match GetUnicode(s)
        case Bad => Bad
        case Got(bytes, rest) => Before(bytes, GetChars(rest))
      else if e == 0 then Bad
      else Before([e], GetChars(s[2..]))
    else Before([c], GetChars(s[1..]))
  }

  function Before(a: seq<Byte>, r: Read<seq<Byte>>): Read<seq<Byte>> {
    match r
    case Bad => Bad
    case Got(b, rest) => Got(a + b, rest)
  }

  // ----- tokens -----

  datatype Token =
    | ObjBegin
    | ObjEnd
    | ArrBegin
    | ArrEnd
    | Colon
    | Comma
    | End
    | String(s: seq<Byte>)
    | Boolean(b: bool)
    | NullToken
    | Numeric
    | Wrong

  predicate IsSpace(b: Byte) { b == 32 || b == 9 || b == 10 || b == 13 }

  /** The same letter in either case. */
  predicate SameLetter(b: Byte, lower: Byte) { b == lower || b + 32 == lower }

  /** What `json_is_invalid_number` takes for a number among the other tokens. */
  predicate InvalidNumber(s: seq<Byte>) {
    At(s, 0) == 43 ||
    (SameLetter(At(s, 0), 105) && SameLetter(At(s, 1), 110) && SameLetter(At(s, 2), 102)) ||
    (SameLetter(At(s, 0), 110) && SameLetter(At(s, 1), 97) && SameLetter(At(s, 2), 110))
  }

  /** What a byte begins if it is a token of its own. */
  function Single(b: Byte): Option<Token> {
    if b == OBJ_BEGIN then Some(ObjBegin)
    else if b == OBJ_END then Some(ObjEnd)
    else if b == ARR_BEGIN then Some(ArrBegin)
    else if b == ARR_END then Some(ArrEnd)
    else if b == COMMA then Some(Comma)
    else if b == COLON then Some(Colon)
    else None
  }

  /** Which bytes may begin a longer token. */
  predicate Longer(b: Byte) { b in [102, 105, 73, 110, 78, 116, QUOTE, 43, 45] || 48 <= b <= 57 }

  /** `json_next_token`. Where a number begins nothing is read: numbers are not modelled. */
  function NextToken(s: seq<Byte>): (r: (Token, seq<Byte>))
    ensures |r.1| <= |s|
    ensures r.0 != End && r.0 != Wrong && r.0 != Numeric ==> |r.1| < |s|
    decreases |s|
  {
    var c := At(s, 0);
    if IsSpace(c) then NextToken(s[1..])
    else if c == 0 then (End, s)
    else if Single(c).Some? then (Single(c).value, s[1..])
    else if !Longer(c) then (Wrong, s)
    else if c == QUOTE then
      match GetChars(s[1..])
      case Bad => (Wrong, s)
      case Got(bytes, rest) => (String(bytes), rest)
    else if c == 45 || 48 <= c <= 57 then (Numeric, s)
    else if TRUE <= s then (Boolean(true), s[4..])
    else if FALSE <= s then (Boolean(false), s[5..])
    else if NULL <= s then (NullToken, s[4..])
    else if InvalidNumber(s) then (Numeric, s)
    else (Wrong, s)
  }

  // ----- parsing -----

  /** What parsing gives; it stops where it meets a number. */
  datatype Parse<+T> = Fail | Number | Parsed(value: T, rest: seq<Byte>)

  /** `json_process_value` in a table of depth `depth`. */
  function GetValue(t: Token, s: seq<Byte>, depth: nat): (r: Parse<Value>)
    ensures r.Parsed? ==> |r.rest| <= |s|
    decreases |s|, if t.ArrBegin? || t.ObjBegin? then 3 else 0
  {
    match t
    case String(x) => Parsed(Str(x), s)
    case Boolean(b) => Parsed(Bool(b), s)
    case NullToken => Parsed(Null, s)
    case Numeric => Number
    case ArrBegin =>
      if depth + 1 > MAX_DEPTH then Fail
      else
        var (t1, s1) := NextToken(s);
        if t1 == ArrEnd then Parsed(Arr(Empty), s1)
        else AsArr(GetItems(t1, s1, depth + 1))
    case ObjBegin =>
      if depth + 1 > MAX_DEPTH then Fail
      else
        var (t1, s1) := NextToken(s);
        if t1 == ObjEnd then Parsed(Obj(Done), s1)
        else AsObj(GetFields(t1, s1, depth + 1))
    case _ => Fail
  }

  function AsArr(p: Parse<List>): Parse<Value> {
    match p
    case Fail => Fail
    case Number => Number
    case Parsed(l, rest) => Parsed(Arr(l), rest)
  }

  function AsObj(p: Parse<Fields>): Parse<Value> {
    match p
    case Fail => Fail
    case Number => Number
    case Parsed(f, rest) => Parsed(Obj(f), rest)
  }

  /** The loop of `json_parse_array_context`. */
  function GetItems(t: Token, s: seq<Byte>, depth: nat): (r: Parse<List>)
    ensures r.Parsed? ==> |r.rest| < |s|
    decreases |s|, if t.ArrBegin? || t.ObjBegin? then 4 else 2
  {
    match GetValue(t, s, depth)
    case Fail => Fail
    case Number => Number
    case Parsed(v, s1) =>
      var (t2, s2) := NextToken(s1);
      if t2 == ArrEnd then Parsed(Item(v, Empty), s2)
      else if t2 != Comma then Fail
      else
        var (t3, s3) := NextToken(s2);
        match GetItems(t3, s3, depth)
        case Fail => Fail
        case Number => Number
        case Parsed(l, rest) => Parsed(Item(v, l), rest)
  }

  /** The loop of `json_parse_object_context`. */
  function GetFields(t: Token, s: seq<Byte>, depth: nat): (r: Parse<Fields>)
    ensures r.Parsed? ==> |r.rest| < |s|
    decreases |s|, 2
  {
    if !t.String? then Fail
    else
      var (t1, s1) := NextToken(s);
      if t1 != Colon then Fail
      else
        var (t2, s2) := NextToken(s1);
        match GetValue(t2, s2, depth)
        case Fail => Fail
        case Number => Number
        case Parsed(v, s3) =>
          var (t4, s4) := NextToken(s3);
          if t4 == ObjEnd then Parsed(Field(t.s, v, Done), s4)
          else if t4 != Comma then Fail
          else
            var (t5, s5) := NextToken(s4);
            match GetFields(t5, s5, depth)
            case Fail => Fail
            case Number => Number
            case Parsed(f, rest) => Parsed(Field(t.s, v, f), rest)
  }

  /** `json_decode` */
  function Decode(s: seq<Byte>): Parse<Value> {
    if |s| >= 2 && (s[0] == 0 || s[1] == 0) then Fail
    else
      var (t, s1) := NextToken(s);
      match GetValue(t, s1, 0)
      case Fail => Fail
      case Number => Number
      case Parsed(v, s2) =>
        var (t3, s3) := NextToken(s2);
        if t3 == End then Parsed(v, s3) else Fail
  }

  // ----- one step of reading -----

  /** One round of reading a string. */
  lemma OneChar(s: seq<Byte>)
    ensures
      var c := At(s, 0);
      if c == QUOTE then s != [] && GetChars(s) == Got([], s[1..])
      else if c == 0 then GetChars(s) == Bad
      else if c != BACKSLASH then s != [] && GetChars(s) == Before([c], GetChars(s[1..]))
      else
        var e := Unescape(At(s, 1));
        if e == 0 then GetChars(s) == Bad
        else if e != 117 then |s| >= 2 && GetChars(s) == Before([e], GetChars(s[2..]))
        else
          match GetUnicode(s)
          case Bad => GetChars(s) == Bad
          case Got(bytes, rest) => |s| >= 2 && GetChars(s) == Before(bytes, GetChars(rest))
  {
  }

  /** What the first byte of a token decides. */
  lemma OneToken(s: seq<Byte>)
    ensures
      var c, r := At(s, 0), NextToken(s);
      if IsSpace(c) then s != [] && r == NextToken(s[1..])
      else if c == 0 then r == (End, s)
      else if Single(c).Some? then s != [] && r == (Single(c).value, s[1..])
      else if !Longer(c) then r.0 == Wrong
      else if c == QUOTE then
        s != [] &&
        match GetChars(s[1..])
        case Bad => r.0 == Wrong
        case Got(bytes, rest) => r == (String(bytes), rest)
      else if c == 45 || 48 <= c <= 57 then r == (Numeric, s)
      else if TRUE <= s then r == (Boolean(true), s[4..])
      else if FALSE <= s then r == (Boolean(false), s[5..])
      else if NULL <= s then r == (NullToken, s[4..])
      else if InvalidNumber(s) then r == (Numeric, s)
      else r.0 == Wrong
  {
  }

  function AsItem(v: Value, p: Parse<List>): Parse<List> {
    match p
    case Fail => Fail
    case Number => Number
    case Parsed(l, rest) => Parsed(Item(v, l), rest)
  }

  function AsField(key: seq<Byte>, v: Value, p: Parse<Fields>): Parse<Fields> {
    match p
    case Fail => Fail
    case Number => Number
    case Parsed(f, rest) => Parsed(Field(key, v, f), rest)
  }

  /** One round of parsing an array. */
  lemma OneItem(t: Token, s: seq<Byte>, depth: nat)
    ensures
      var p, x := GetItems(t, s, depth), GetValue(t, s, depth);
      (x == Fail ==> p == Fail) && (x == Number ==> p == Number) &&
      (x.Parsed? ==>
        var r := NextToken(x.rest);
        var q := NextToken(r.1);
        if r.0 == ArrEnd then p == Parsed(Item(x.value, Empty), r.1)
        else if r.0 != Comma then p == Fail
        else p == AsItem(x.value, GetItems(q.0, q.1, depth)))
  {
    hide NextToken, GetValue, GetFields;
  }

  /** One round of parsing an object. */
  lemma OneField(t: Token, s: seq<Byte>, depth: nat)
    ensures
      var p, r := GetFields(t, s, depth), NextToken(s);
      var q := NextToken(r.1);
      var x := GetValue(q.0, q.1, depth);
      if !t.String? || r.0 != Colon then p == Fail
      else
        (x == Fail ==> p == Fail) && (x == Number ==> p == Number) &&
        (x.Parsed? ==>
          var u := NextToken(x.rest);
          var w := NextToken(u.1);
          if u.0 == ObjEnd then p == Parsed(Field(t.s, x.value, Done), u.1)
          else if u.0 != Comma then p == Fail
          else p == AsField(t.s, x.value, GetFields(w.0, w.1, depth)))
  {
    hide NextToken, GetValue, GetItems;
  }

  // ----- reading undoes writing -----

  /** What a value is after it has been written and read: holes are null. */
  function Back(v: Value): Value {
    match v
    case Nil => Null
    case Arr(items) => Arr(BackItems(items))
    case Obj(fields) => Obj(BackFields(fields))
    case _ => v
  }

  function BackItems(l: List): List { if l.Empty? then Empty else Item(Back(l.head), BackItems(l.tail)) }

  function BackFields(f: Fields): Fields {
    if f.Done? then Done else Field(f.key, Back(f.v), BackFields(f.rest))
  }

  lemma HexBack(d: nat)
    requires d < 16
    ensures HexDigit(HexChar(d)) == d && HexChar(d) != 0
  {
  }

  /** An escape is read as the byte it stands for. */
  lemma OneBack(b: Byte, x: seq<Byte>)
    ensures GetChars(EscapeOne(b) + x) == Before([b], GetChars(x))
  {
    var e := EscapeOne(b);
    var s := e + x;
    assert s[0] == e[0] && s[|e|..] == x;
    if |e| == 6 {
      UnicodeBack(b, x);
    } else if |e| == 2 {
      assert s[1] == e[1];
    }
  }

  lemma UnicodeBack(b: Byte, x: seq<Byte>)
    requires |EscapeOne(b)| == 6
    ensures GetUnicode(EscapeOne(b) + x) == Got([b], x)
  {
    var e := EscapeOne(b);
    var s := e + x;
    assert s[2] == 48 && s[3] == 48 && s[4] == HexChar(b / 16) && s[5] == HexChar(b % 16) && s[6..] == x;
    HexBack(b / 16);
    HexBack(b % 16);
    assert Hex4(s, 2) == b;
  }

  /** How a byte is written: two bytes for the controls that have a letter, the quote, the slash and the backslash, six
      with small hexadecimal digits for the other controls, and one for all the rest. */
  lemma EscapeForm(b: Byte)
    ensures
      var e := EscapeOne(b);
      (b == 8 || b == 9 || b == 10 || b == 12 || b == 13 || b == 34 || b == 47 || b == 92 ==> |e| == 2) &&
      ((b < 8 || b == 11 || 13 < b < 32 || b == 127) ==>
        |e| == 6 && forall k :: 1 <= k < 6 ==> 48 <= e[k] <= 57 || 97 <= e[k] <= 122) &&
      (32 <= b && b != 34 && b != 47 && b != 92 && b != 127 ==> e == [b]) &&
      (|e| > 1 ==> e[0] == 92) &&
      forall x: seq<Byte> :: GetChars(e + x) == Before([b], GetChars(x))
  {
    forall x: seq<Byte> ensures GetChars(EscapeOne(b) + x) == Before([b], GetChars(x)) { OneBack(b, x); }
    hide GetChars;
  }

  lemma {:induction false} CharsBack(s: seq<Byte>, x: seq<Byte>)
    ensures GetChars(EscapeAll(s) + [QUOTE] + x) == Got(s, x)
  {
    if s == [] {
      assert EscapeAll(s) + [QUOTE] + x == [QUOTE] + x;
    } else {
      var rest := EscapeAll(s[1..]) + [QUOTE] + x;
      assert EscapeAll(s) + [QUOTE] + x == EscapeOne(s[0]) + rest;
      OneBack(s[0], rest);
      CharsBack(s[1..], x);
      assert [s[0]] + s[1..] == s;
    }
  }

  /** A string is one token. */
  lemma QuotedBack(s: seq<Byte>, x: seq<Byte>)
    ensures NextToken(Quoted(s) + x) == (String(s), x)
  {
    var t := Quoted(s) + x;
    assert t[1..] == EscapeAll(s) + [QUOTE] + x;
    CharsBack(s, x);
  }

  /** A code unit in four hexadecimal digits. */
  function HexOf(c: nat): seq<Byte>
    requires c < 0x1_0000
  {
    [BACKSLASH, 117, HexChar(c / 0x1000), HexChar(c / 0x100 % 16), HexChar(c / 16 % 16), HexChar(c % 16)]
  }

  /** A character written as one escape, or as a surrogate pair (section 7 of RFC 8259). */
  function EscapeOf(c: nat): seq<Byte>
    requires c < 0x11_0000
  {
    if c < 0x1_0000 then HexOf(c)
    else HexOf(0xD800 + (c - 0x1_0000) / 0x400) + HexOf(0xDC00 + (c - 0x1_0000) % 0x400)
  }

  lemma Nibbles(c: nat)
    ensures c == c / 0x1000 * 0x1000 + c / 0x100 % 16 * 0x100 + c / 16 % 16 * 0x10 + c % 16
  {
    assert c / 0x100 == c / 0x1000 * 16 + c / 0x100 % 16;
    assert c / 16 == c / 0x100 * 16 + c / 16 % 16;
  }

  lemma HexOfBack(s: seq<Byte>, k: nat, c: nat)
    requires c < 0x1_0000 && k >= 2 && k + 4 <= |s| && s[k - 2..k + 4] == HexOf(c)
    ensures Hex4(s, k) == c
  {
    hide HexChar, HexDigit;
    Nibbles(c);
    var h := s[k - 2..k + 4];
    assert s[k] == h[2] && s[k + 1] == h[3] && s[k + 2] == h[4] && s[k + 3] == h[5];
    HexBack(c / 0x1000);
    HexBack(c / 0x100 % 16);
    HexBack(c / 16 % 16);
    HexBack(c % 16);
  }

  lemma Surrogates(d: nat)
    requires d < 0x10_0000
    ensures
      var high, low := 0xD800 + d / 0x400, 0xDC00 + d % 0x400;
      high / 0x800 == 0x1B && high / 0x400 % 2 == 0 && low / 0x400 == 0x37 && low < 0x1_0000 &&
      high % 0x400 * 0x400 + low % 0x400 == d
  {
    assert 0xD800 == 54 * 0x400 && 0xDC00 == 55 * 0x400;
  }

  /** An escaped character is read as its UTF-8 bytes; a lone surrogate is refused. */
  lemma EscapeBack(c: nat, x: seq<Byte>)
    requires c < 0x11_0000 && !(0xD800 <= c < 0xE000)
    ensures GetUnicode(EscapeOf(c) + x) == Got(Utf8(c), x)
  {
    hide Utf8, Hex4, HexChar;
    var e := EscapeOf(c);
    var s := e + x;
    assert s[..|e|] == e && s[|e|..] == x;
    if c < 0x1_0000 {
      assert s[0..6] == e;
      HexOfBack(s, 2, c);
    } else {
      var d := c - 0x1_0000;
      assert s[0..6] == HexOf(0xD800 + d / 0x400) && s[6..12] == HexOf(0xDC00 + d % 0x400);
      assert s[6] == s[6..12][0] && s[7] == s[6..12][1];
      Surrogates(d);
      HexOfBack(s, 2, 0xD800 + d / 0x400);
      HexOfBack(s, 8, 0xDC00 + d % 0x400);
    }
  }

  /** What UTF-8 bytes stand for (section 3 of RFC 3629). */
  function FromUtf8(s: seq<Byte>): nat
    requires 1 <= |s| <= 4
  {
    var a: int, b: int := s[0], if |s| > 1 then s[1] % 64 else 0;
    var c: int, d: int := if |s| > 2 then s[2] % 64 else 0, if |s| > 3 then s[3] % 64 else 0;
    if |s| == 1 then a
    else if |s| == 2 then a % 32 * 64 + b
    else if |s| == 3 then a % 16 * 4096 + b * 64 + c
    else a % 8 * 0x4_0000 + b * 4096 + c * 64 + d
  }

  lemma Sextets(c: nat)
    ensures c == c / 64 * 64 + c % 64 && c / 64 == c / 4096 * 64 + c / 64 % 64
    ensures c / 4096 == c / 0x4_0000 * 64 + c / 4096 % 64
  {
  }

  /** The marks of leading and continuing bytes are dropped. */
  lemma Marks(x: nat)
    ensures x < 64 ==> (x + 0x80) % 64 == x
    ensures (x < 32 ==> (x + 0xC0) % 32 == x) && (x < 16 ==> (x + 0xE0) % 16 == x) && (x < 8 ==> (x + 0xF0) % 8 == x)
  {
  }

  /** The first byte tells how many there are, and no other byte can be taken for a first one. */
  lemma Utf8Marks(c: nat)
    requires c < 0x11_0000
    ensures
      var first, n := Utf8(c)[0], |Utf8(c)|;
      if n == 1 then first < 0x80
      else if n == 2 then 0xC0 <= first < 0xE0
      else if n == 3 then 0xE0 <= first < 0xF0
      else 0xF0 <= first < 0xF8
    ensures forall k :: 1 <= k < |Utf8(c)| ==> 0x80 <= Utf8(c)[k] < 0xC0
  {
    if c >= 0x1_0000 { assert c / 0x4_0000 < 8; } else if c >= 0x800 { assert c / 4096 < 16; }
  }

  lemma Utf8Back(c: nat)
    requires c < 0x11_0000
    ensures FromUtf8(Utf8(c)) == c
    ensures |Utf8(c)| == if c < 0x80 then 1 else if c < 0x800 then 2 else if c < 0x1_0000 then 3 else 4
  {
    Sextets(c);
    Marks(c % 64);
    Marks(c / 64 % 64);
    Marks(c / 4096 % 64);
    if c < 0x800 { Marks(c / 64); } else if c < 0x1_0000 { Marks(c / 4096); } else { Marks(c / 0x4_0000); }
  }

  /** So is every word and every byte that is a token of its own. */
  lemma WordsBack(x: seq<Byte>)
    ensures NextToken(TRUE + x) == (Boolean(true), x) && NextToken(FALSE + x) == (Boolean(false), x)
    ensures NextToken(NULL + x) == (NullToken, x)
  {
    assert (TRUE + x)[0] == 116 && (TRUE + x)[4..] == x;
    assert (FALSE + x)[0] == 102 && (FALSE + x)[5..] == x;
    assert (NULL + x)[0] == 110 && (NULL + x)[4..] == x;
    assert (FALSE + x)[1] == 97 && (NULL + x)[1] == 117;
  }

  lemma SingleBack(b: Byte, x: seq<Byte>)
    requires Single(b).Some?
    ensures NextToken([b] + x) == (Single(b).value, x)
  {
    assert ([b] + x)[0] == b && ([b] + x)[1..] == x;
  }

  /** Tokens with which a value may begin. */
  predicate Begins(t: Token) { t.String? || t.Boolean? || t.NullToken? || t.ArrBegin? || t.ObjBegin? }

  /** What the text of a table is made of. */
  lemma TableText(v: Value, depth: nat)
    requires Text(v, depth).Some?
    ensures v.Arr? ==>
      depth < MAX_DEPTH && ItemsText(v.items, depth + 1).Some? &&
      Text(v, depth).value == [ARR_BEGIN] + ItemsText(v.items, depth + 1).value + [ARR_END]
    ensures v.Obj? ==>
      depth < MAX_DEPTH && FieldsText(v.fields, depth + 1).Some? &&
      Text(v, depth).value == [OBJ_BEGIN] + FieldsText(v.fields, depth + 1).value + [OBJ_END]
  {
  }

  lemma ItemsTextIs(l: List, depth: nat)
    requires ItemsText(l, depth).Some?
    ensures l.Empty? ==> ItemsText(l, depth).value == []
    ensures l.Item? ==>
      Text(l.head, depth).Some? && ItemsText(l.tail, depth).Some? &&
      ItemsText(l, depth).value ==
        Text(l.head, depth).value + if l.tail.Empty? then [] else [COMMA] + ItemsText(l.tail, depth).value
  {
  }

  lemma FieldsTextIs(f: Fields, depth: nat)
    requires FieldsText(f, depth).Some?
    ensures f.Done? ==> FieldsText(f, depth).value == []
    ensures f.Field? ==>
      Text(f.v, depth).Some? && FieldsText(f.rest, depth).Some? &&
      FieldsText(f, depth).value ==
        Quoted(f.key) + [COLON] + Text(f.v, depth).value +
        if f.rest.Done? then [] else [COMMA] + FieldsText(f.rest, depth).value
  {
  }

  /** One step of parsing a table. */
  lemma GetArr(s: seq<Byte>, depth: nat)
    requires depth < MAX_DEPTH
    ensures
      var r := NextToken(s);
      GetValue(ArrBegin, s, depth) == if r.0 == ArrEnd then Parsed(Arr(Empty), r.1)
        else AsArr(GetItems(r.0, r.1, depth + 1))
  {
  }

  lemma GetObj(s: seq<Byte>, depth: nat)
    requires depth < MAX_DEPTH
    ensures
      var r := NextToken(s);
      GetValue(ObjBegin, s, depth) == if r.0 == ObjEnd then Parsed(Obj(Done), r.1)
        else AsObj(GetFields(r.0, r.1, depth + 1))
  {
  }

  lemma LastItem(t: Token, s: seq<Byte>, depth: nat, v: Value, x: seq<Byte>)
    requires GetValue(t, s, depth) == Parsed(v, [ARR_END] + x)
    ensures GetItems(t, s, depth) == Parsed(Item(v, Empty), x)
  {
    hide NextToken, GetValue;
    SingleBack(ARR_END, x);
  }

  lemma NextItem(t: Token, s: seq<Byte>, depth: nat, v: Value, more: seq<Byte>, l: List, x: seq<Byte>)
    requires GetValue(t, s, depth) == Parsed(v, [COMMA] + more)
    requires GetItems(NextToken(more).0, NextToken(more).1, depth) == Parsed(l, x)
    ensures GetItems(t, s, depth) == Parsed(Item(v, l), x)
  {
    hide NextToken, GetValue;
    SingleBack(COMMA, more);
  }

  lemma LastField(key: seq<Byte>, s: seq<Byte>, depth: nat, v: Value, x: seq<Byte>)
    requires GetValue(NextToken(s).0, NextToken(s).1, depth) == Parsed(v, [OBJ_END] + x)
    ensures GetFields(String(key), [COLON] + s, depth) == Parsed(Field(key, v, Done), x)
  {
    hide NextToken, GetValue;
    SingleBack(COLON, s);
    SingleBack(OBJ_END, x);
  }

  lemma NextField(key: seq<Byte>, s: seq<Byte>, depth: nat, v: Value, more: seq<Byte>, f: Fields, x: seq<Byte>)
    requires GetValue(NextToken(s).0, NextToken(s).1, depth) == Parsed(v, [COMMA] + more)
    requires GetFields(NextToken(more).0, NextToken(more).1, depth) == Parsed(f, x)
    ensures GetFields(String(key), [COLON] + s, depth) == Parsed(Field(key, v, f), x)
  {
    hide NextToken, GetValue;
    SingleBack(COLON, s);
    SingleBack(COMMA, more);
  }

  lemma SimpleBack(v: Value, depth: nat, x: seq<Byte>)
    requires !v.Arr? && !v.Obj?
    ensures Text(v, depth).Some?
    ensures
      var r := NextToken(Text(v, depth).value + x);
      Begins(r.0) && GetValue(r.0, r.1, depth) == Parsed(Back(v), x)
  {
    hide NextToken, Quoted;
    WordsBack(x);
    if v.Str? { QuotedBack(v.s, x); }
  }

  /** The text of a value, with anything behind it, is read as the value. */
  lemma {:induction false} ValueBack(v: Value, depth: nat, x: seq<Byte>)
    requires Text(v, depth).Some?
    ensures
      var r := NextToken(Text(v, depth).value + x);
      Begins(r.0) && GetValue(r.0, r.1, depth) == Parsed(Back(v), x)
    decreases v, 0
  {
    hide Text, ItemsText, FieldsText, NextToken, GetValue, GetItems, GetFields;
    if !v.Arr? && !v.Obj? {
      SimpleBack(v, depth, x);
      return;
    }
    TableText(v, depth);
    if v.Arr? {
      var s := ItemsText(v.items, depth + 1).value + [ARR_END] + x;
      assert Text(v, depth).value + x == [ARR_BEGIN] + s;
      SingleBack(ARR_BEGIN, s);
      GetArr(s, depth);
      if v.items.Empty? {
        ItemsTextIs(v.items, depth + 1);
        assert s == [ARR_END] + x;
        SingleBack(ARR_END, x);
      } else {
        ItemsBack(v.items, depth + 1, x);
      }
    } else {
      var s := FieldsText(v.fields, depth + 1).value + [OBJ_END] + x;
      assert Text(v, depth).value + x == [OBJ_BEGIN] + s;
      SingleBack(OBJ_BEGIN, s);
      GetObj(s, depth);
      if v.fields.Done? {
        FieldsTextIs(v.fields, depth + 1);
        assert s == [OBJ_END] + x;
        SingleBack(OBJ_END, x);
      } else {
        FieldsBack(v.fields, depth + 1, x);
      }
    }
  }

  lemma {:induction false} ItemsBack(l: List, depth: nat, x: seq<Byte>)
    requires l.Item? && ItemsText(l, depth).Some?
    ensures
      var r := NextToken(ItemsText(l, depth).value + [ARR_END] + x);
      Begins(r.0) && GetItems(r.0, r.1, depth) == Parsed(BackItems(l), x)
    decreases l, 1
  {
    hide Text, ItemsText, NextToken, GetValue, GetItems;
    ItemsTextIs(l, depth);
    var s, head := ItemsText(l, depth).value + [ARR_END] + x, Text(l.head, depth).value;
    var r := NextToken(s);
    if l.tail.Empty? {
      ValueBack(l.head, depth, [ARR_END] + x);
      assert s == head + ([ARR_END] + x);
      LastItem(r.0, r.1, depth, Back(l.head), x);
    } else {
      var more := ItemsText(l.tail, depth).value + [ARR_END] + x;
      ValueBack(l.head, depth, [COMMA] + more);
      assert s == head + ([COMMA] + more);
      ItemsBack(l.tail, depth, x);
      NextItem(r.0, r.1, depth, Back(l.head), more, BackItems(l.tail), x);
    }
  }

  lemma {:induction false} FieldsBack(f: Fields, depth: nat, x: seq<Byte>)
    requires f.Field? && FieldsText(f, depth).Some?
    ensures
      var r := NextToken(FieldsText(f, depth).value + [OBJ_END] + x);
      r.0.String? && GetFields(r.0, r.1, depth) == Parsed(BackFields(f), x)
    decreases f, 1
  {
    hide Text, FieldsText, NextToken, GetValue, GetFields, Quoted;
    FieldsTextIs(f, depth);
    var s, one := FieldsText(f, depth).value + [OBJ_END] + x, Text(f.v, depth).value;
    if f.rest.Done? {
      var end := [OBJ_END] + x;
      assert s == Quoted(f.key) + ([COLON] + (one + end));
      QuotedBack(f.key, [COLON] + (one + end));
      ValueBack(f.v, depth, end);
      LastField(f.key, one + end, depth, Back(f.v), x);
    } else {
      var more := FieldsText(f.rest, depth).value + [OBJ_END] + x;
      var end := [COMMA] + more;
      assert s == Quoted(f.key) + ([COLON] + (one + end));
      QuotedBack(f.key, [COLON] + (one + end));
      ValueBack(f.v, depth, end);
      FieldsBack(f.rest, depth, x);
      NextField(f.key, one + end, depth, Back(f.v), more, BackFields(f.rest), x);
    }
  }

  /** Every byte of the text is printable or above 127: the text has no zero. */
  predicate Plain(t: seq<Byte>) { forall k :: 0 <= k < |t| ==> t[k] >= 32 && t[k] != 127 }

  lemma {:induction false} EscapePlain(s: seq<Byte>)
    ensures Plain(EscapeAll(s))
  {
    if s != [] { EscapePlain(s[1..]); }
  }

  lemma {:induction false} TextPlain(v: Value, depth: nat)
    requires Text(v, depth).Some?
    ensures Plain(Text(v, depth).value) && |Text(v, depth).value| >= 2
    decreases v
  {
    match v
    case Str(s) => EscapePlain(s);
    case Arr(items) => ItemsPlain(items, depth + 1);
    case Obj(fields) => FieldsPlain(fields, depth + 1);
    case _ =>
  }

  lemma {:induction false} ItemsPlain(l: List, depth: nat)
    requires ItemsText(l, depth).Some?
    ensures Plain(ItemsText(l, depth).value)
    decreases l
  {
    if l.Item? {
      TextPlain(l.head, depth);
      ItemsPlain(l.tail, depth);
    }
  }

  lemma {:induction false} FieldsPlain(f: Fields, depth: nat)
    requires FieldsText(f, depth).Some?
    ensures Plain(FieldsText(f, depth).value)
    decreases f
  {
    if f.Field? {
      EscapePlain(f.key);
      TextPlain(f.v, depth);
      FieldsPlain(f.rest, depth);
    }
  }

  /** Whatever can be written is read back. */
  lemma RoundTrip(v: Value)
    requires Text(v, 0).Some?
    ensures Decode(Text(v, 0).value) == Parsed(Back(v), [])
  {
    hide Text, Back, NextToken, GetValue;
    var t := Text(v, 0).value;
    TextPlain(v, 0);
    ValueBack(v, 0, []);
    assert t + [] == t;
    AtEnd();
  }

  lemma AtEnd()
    ensures NextToken([]) == (End, [])
  {
  }

  /** How deep the tables of a value are nested. */
  function Depth(v: Value): nat {
    match v
    case Arr(items) => 1 + DepthItems(items)
    case Obj(fields) => 1 + DepthFields(fields)
    case _ => 0
  }

  function DepthItems(l: List): nat { if l.Empty? then 0 else Max(Depth(l.head), DepthItems(l.tail)) }

  function DepthFields(f: Fields): nat { if f.Done? then 0 else Max(Depth(f.v), DepthFields(f.rest)) }

  /** No array is longer than 10 and more than twice as long as it has elements that are not holes. */
  predicate Dense(v: Value) {
    match v
    case Arr(items) => !(Length(items) > 10 && Length(items) > 2 * Count(items)) && DenseItems(items)
    case Obj(fields) => DenseFields(fields)
    case _ => true
  }

  predicate DenseItems(l: List) { l.Item? ==> Dense(l.head) && DenseItems(l.tail) }

  predicate DenseFields(f: Fields) { f.Field? ==> Dense(f.v) && DenseFields(f.rest) }

  /** What can be written. */
  lemma {:induction false} Writable(v: Value, depth: nat)
    requires depth <= 1000
    ensures Text(v, depth).Some? <==> depth + Depth(v) <= 1000 && Dense(v)
    decreases v
  {
    match v
    case Arr(items) => if depth < MAX_DEPTH { WritableItems(items, depth + 1); }
    case Obj(fields) => if depth < MAX_DEPTH { WritableFields(fields, depth + 1); }
    case _ =>
  }

  lemma {:induction false} WritableItems(l: List, depth: nat)
    requires depth <= MAX_DEPTH
    ensures ItemsText(l, depth).Some? <==> depth + DepthItems(l) <= MAX_DEPTH && DenseItems(l)
    decreases l
  {
    if l.Item? {
      Writable(l.head, depth);
      WritableItems(l.tail, depth);
    }
  }

  lemma {:induction false} WritableFields(f: Fields, depth: nat)
    requires depth <= MAX_DEPTH
    ensures FieldsText(f, depth).Some? <==> depth + DepthFields(f) <= MAX_DEPTH && DenseFields(f)
    decreases f
  {
    if f.Field? {
      Writable(f.v, depth);
      WritableFields(f.rest, depth);
    }
  }
}
