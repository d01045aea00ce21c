/** The writer and the parser of lua_cjson.c: a growing buffer with unchecked appends, a cursor into the text, and a
    depth counter. */
module JsonCodec {
  import opened Common
  import opened JsonText

  const STRBUF_DEFAULT_SIZE := 1023

  /** `strbuf_t`: the first `length` bytes of the buffer are in use. */
  class StrBuf {
    var buf: array<Byte>
    var length: nat

    ghost predicate Valid()
      reads this
    {
      length < buf.Length
    }

    ghost function Contents(): seq<Byte>
      requires Valid()
      reads this, buf
    {
      buf[..length]
    }

    /** `strbuf_new` */
    constructor (len: nat)
      ensures Valid() && fresh(buf) && Contents() == [] && buf.Length > len
    {
      var size := if len == 0 then STRBUF_DEFAULT_SIZE else len + 1;
      buf := new Byte[size](_ => 0);
      length := 0;
    }

    /** `strbuf_reset` */
    method Reset()
      requires buf.Length > 0
      modifies this`length
      ensures Valid() && Contents() == []
    {
      length := 0;
    }

    /** `calculate_new_size`, with the exponential increment that is set by default. */
    method NewSize(len: nat) returns (size: nat)
      requires Valid() && len > 0
      ensures size > len
    {
      var reqsize := len + 1;
      if buf.Length > reqsize { return reqsize; }
      size := buf.Length;
      while size < reqsize
        invariant size > 0
      {
        size := size * 2;
      }
    }

    /** `strbuf_resize` */
    method Resize(len: nat)
      requires Valid() && len > 0 && len >= length
      modifies this`buf
      ensures Valid() && fresh(buf) && buf.Length > len && Contents() == old(Contents())
    {
      var size := NewSize(len);
      var larger := new Byte[size](i requires 0 <= i reads this, buf => if i < length &&
        i < buf.Length then buf[i] else 0);
      assert larger[..length] == buf[..length];
      buf := larger;
    }

    /** `strbuf_ensure_empty_length` */
    method EnsureEmptyLength(len: nat)
      requires Valid() && len > 0
      modifies this`buf
      ensures Valid() && (buf == old(buf) || fresh(buf)) && length + len < buf.Length && Contents() == old(Contents())
    {
      if len > buf.Length - length - 1 { Resize(length + len); }
    }

    /** `strbuf_append_char_unsafe`: the caller has to know that there is room. */
    method AppendCharUnsafe(c: Byte)
      requires Valid() && length + 1 < buf.Length
      modifies this`length, buf
      ensures Valid() && Contents() == old(Contents()) + [c] && length == old(length) + 1
    {
      buf[length] := c;
      length := length + 1;
    }

    /** `strbuf_append_mem_unsafe` */
    method AppendMemUnsafe(m: seq<Byte>)
      requires Valid() && length + |m| < buf.Length
      modifies this`length, buf
      ensures Valid() && Contents() == old(Contents()) + m && length == old(length) + |m|
    {
      forall i | 0 <= i < |m| { buf[length + i] := m[i]; }
      length := length + |m|;
    }

    /** `strbuf_ensure_null` */
    method EnsureNull()
      requires Valid()
      modifies buf
      ensures Valid() && Contents() == old(Contents()) && buf[length] == 0
    {
      buf[length] := 0;
    }

    /** `strbuf_append_char` */
    method AppendChar(c: Byte)
      requires Valid()
      modifies this, buf
      ensures Valid() && (buf == old(buf) || fresh(buf)) && Contents() == old(Contents()) + [c]
    {
      EnsureEmptyLength(1);
      AppendCharUnsafe(c);
    }

    /** `strbuf_append_mem` */
    method AppendMem(m: seq<Byte>)
      requires Valid() && m != []
      modifies this, buf
      ensures Valid() && (buf == old(buf) || fresh(buf)) && Contents() == old(Contents()) + m
    {
      EnsureEmptyLength(|m|);
      AppendMemUnsafe(m);
    }

    /** `strbuf_append_string`: the buffer grows only when there is no room for the next byte. */
    method AppendString(m: seq<Byte>)
      requires Valid()
      modifies this, buf
      ensures Valid() && (buf == old(buf) || fresh(buf)) && Contents() == old(Contents()) + m
      ensures old(length) + |m| < old(buf.Length) ==> buf == old(buf)
      ensures length == old(length) + |m|
    {
      var space := buf.Length - length - 1;
      var i := 0;
      while i < |m|
        invariant 0 <= i <= |m| && Valid() && (buf == old(buf) || fresh(buf))
        invariant space == buf.Length - length - 1 && length == old(length) + i
        invariant Contents() == old(Contents()) + m[..i]
        invariant old(length) + |m| < old(buf.Length) ==> buf == old(buf)
      {
        if space < 1 {
          Resize(length + 1);
          space := buf.Length - length - 1;
        }
        AppendCharUnsafe(m[i]);
        assert m[..i + 1] == m[..i] + [m[i]];
        space := space - 1;
        i := i + 1;
      }
      assert m[..|m|] == m;
    }
  }

  // ----- writing -----

  lemma EscapeAllSplit(s: seq<Byte>, i: nat)
    requires i < |s|
    ensures EscapeAll(s[..i + 1]) == EscapeAll(s[..i]) + EscapeOne(s[i])
  {
    EscapeAllPush(s[..i], s[i]);
    assert s[..i + 1] == s[..i] + [s[i]];
  }

  lemma {:induction false} EscapeAllPush(s: seq<Byte>, b: Byte)
    ensures EscapeAll(s + [b]) == EscapeAll(s) + EscapeOne(b)
  {
    if s == [] {
      assert [b][1..] == [];
    } else {
      assert (s + [b])[1..] == s[1..] + [b];
      EscapeAllPush(s[1..], b);
    }
  }

  /** One round of the loop of `json_append_string`. */
  method AppendEscaped(json: StrBuf, b: Byte)
    requires json.Valid() && json.length + 6 < json.buf.Length
    modifies json, json.buf
    ensures json.Valid() && json.buf == old(json.buf) && json.Contents() == old(json.Contents()) + EscapeOne(b)
    ensures json.length <= old(json.length) + 6
  {
    hide Escape;
    var e := Escape(b);
    OneIs(b);
    if e.Some? { json.AppendString(e.value); } else { json.AppendCharUnsafe(b); }
  }

  /** The loop of `json_append_string`. */
  method AppendAll(json: StrBuf, s: seq<Byte>)
    requires json.Valid() && json.length + |s| * 6 < json.buf.Length
    modifies json, json.buf
    ensures json.Valid() && json.buf == old(json.buf) && json.length <= old(json.length) + |s| * 6
    ensures json.Contents() == old(json.Contents()) + EscapeAll(s)
  {
    hide EscapeAll, EscapeOne;
    ghost var limit, start := json.length + |s| * 6, json.Contents();
    var i := 0;
    NoneEscaped(s[..0]);
    while i < |s|
      invariant 0 <= i <= |s| && json.Valid() && json.buf == old(json.buf)
      invariant json.length + (|s| - i) * 6 <= limit && json.Contents() == start + EscapeAll(s[..i])
    {
      EscapeAllSplit(s, i);
      AppendEscaped(json, s[i]);
      i := i + 1;
    }
    assert s[..|s|] == s;
  }

  /** `json_append_string`. The room that is made first is enough for all that follows. */
  method AppendQuoted(json: StrBuf, s: seq<Byte>)
    requires json.Valid()
    modifies json, json.buf
    ensures json.Valid() && (json.buf == old(json.buf) || fresh(json.buf))
    ensures json.Contents() == old(json.Contents()) + Quoted(s)
  {
    hide EscapeAll;
    json.EnsureEmptyLength(|s| * 6 + 2);
    json.AppendCharUnsafe(QUOTE);
    AppendAll(json, s);
    json.AppendCharUnsafe(QUOTE);
  }

  lemma OneIs(b: Byte)
    ensures EscapeOne(b) == if Escape(b).Some? then Escape(b).value else [b]
    ensures |EscapeOne(b)| <= 6
  {
  }

  lemma NoneEscaped(s: seq<Byte>)
    requires s == []
    ensures EscapeAll(s) == []
  {
  }

  /** What a Lua table can be: an array has elements and ends with one, and fields have values. */
  predicate Proper(v: Value) {
    match v
    case Arr(items) => items.Item? && ProperItems(items)
    case Obj(fields) => ProperFields(fields)
    case _ => true
  }

  predicate ProperItems(l: List) {
    l.Item? ==> Proper(l.head) && ProperItems(l.tail) && (l.tail.Empty? ==> !l.head.Nil?)
  }

  predicate ProperFields(f: Fields) { f.Field? ==> Proper(f.v) && !f.v.Nil? && ProperFields(f.rest) }

  /** `lua_array_length` for an array: its largest index, or nothing if it has too many holes. */
  method ArrayLength(l: List) returns (n: Option<nat>)
    requires l.Item? && ProperItems(l)
    ensures n == if Sparse(l) then None else Some(Length(l))
  {
    var max: nat, items: nat := 0, 0;
    var cur, k := l, 0;
    while cur.Item?
      invariant k + Length(cur) == Length(l) && items + Count(cur) == Count(l)
      invariant ProperItems(cur) && max <= k && (cur.Empty? ==> max == k)
      decreases cur
    {
      k := k + 1;
      if !cur.head.Nil? {
        if k > max { max := k; }
        items := items + 1;
      }
      cur := cur.tail;
    }
    if max > items * SPARSE_RATIO && max > SPARSE_SAFE { return None; }
    return Some(max);
  }

  /** When the rest of a table can be written. */
  lemma ItemsSome(l: List, depth: nat)
    requires l.Item?
    ensures ItemsText(l, depth).Some? <==> Text(l.head, depth).Some? && ItemsText(l.tail, depth).Some?
  {
  }

  lemma FieldsSome(f: Fields, depth: nat)
    requires f.Field?
    ensures FieldsText(f, depth).Some? <==> Text(f.v, depth).Some? && FieldsText(f.rest, depth).Some?
  {
  }

  /** The comma in front of what is written behind something. */
  function Separated(comma: bool, more: bool, t: seq<Byte>): seq<Byte> { if comma && more then [COMMA] + t else t }

  /** `json_append_data`; nothing is promised of the buffer if the value cannot be serialised. */
  method AppendData(json: StrBuf, v: Value, depth: nat) returns (ok: bool)
    requires json.Valid() && Proper(v) && depth <= MAX_DEPTH
    modifies json, json.buf
    ensures json.Valid() && (json.buf == old(json.buf) || fresh(json.buf))
    ensures ok == Text(v, depth).Some?
    ensures ok ==> json.Contents() == old(json.Contents()) + Text(v, depth).value
    decreases v, 0
  {
    hide ItemsText, FieldsText, Quoted, Sparse;
    ok := true;
    match v
    case Nil => json.AppendMem(NULL);
    case Null => json.AppendMem(NULL);
    case Bool(b) => json.AppendMem(if b then TRUE else FALSE);
    case Str(s) => AppendQuoted(json, s);
    case Arr(items) =>
      if depth + 1 > MAX_DEPTH { return false; }
      var n := ArrayLength(items);
      if n == None { return false; }
      ok := AppendArray(json, items, depth + 1);
    case Obj(fields) =>
      if depth + 1 > MAX_DEPTH { return false; }
      ok := AppendObject(json, fields, depth + 1);
  }

  /** The text of an array is `done` and the text of what is left. */
  predicate ItemsDone(l: List, depth: nat, done: seq<Byte>, cur: List, comma: bool) {
    (ItemsText(l, depth).Some? <==> ItemsText(cur, depth).Some?) &&
    (ItemsText(l, depth).Some? ==>
      ItemsText(l, depth).value == done + Separated(comma, cur.Item?, ItemsText(cur, depth).value))
  }

  lemma ItemsStep(l: List, depth: nat, done: seq<Byte>, cur: List, comma: bool)
    requires ItemsDone(l, depth, done, cur, comma) && cur.Item?
    ensures Text(cur.head, depth).None? ==> ItemsText(l, depth).None?
    ensures Text(cur.head, depth).Some? ==>
      ItemsDone(l, depth, done + Separated(comma, true, Text(cur.head, depth).value), cur.tail, true)
  {
    hide ItemsText, Text;
    ItemsSome(cur, depth);
    if ItemsText(cur, depth).Some? {
      ItemsTextIs(cur, depth);
      ItemsTextIs(cur.tail, depth);
    }
  }

  lemma ItemsEnd(l: List, depth: nat, done: seq<Byte>, cur: List, comma: bool)
    requires ItemsDone(l, depth, done, cur, comma) && cur.Empty?
    ensures ItemsText(l, depth) == Some(done)
  {
    NoMore(depth);
    assert done + [] == done;
  }

  lemma NoMore(depth: nat)
    ensures ItemsText(Empty, depth) == Some([]) && FieldsText(Done, depth) == Some([])
  {
  }

  /** One element and the comma in front of it. */
  method AppendItem(json: StrBuf, v: Value, depth: nat, comma: bool) returns (ok: bool)
    requires json.Valid() && Proper(v) && depth <= MAX_DEPTH
    modifies json, json.buf
    ensures json.Valid() && (json.buf == old(json.buf) || fresh(json.buf))
    ensures ok == Text(v, depth).Some?
    ensures ok ==> json.Contents() == old(json.Contents()) + Separated(comma, true, Text(v, depth).value)
    decreases v, 1
  {
    hide Text;
    if comma { json.AppendChar(COMMA); }
    ok := AppendData(json, v, depth);
  }

  /** `json_append_array` */
  method AppendArray(json: StrBuf, l: List, depth: nat) returns (ok: bool)
    requires json.Valid() && ProperItems(l) && depth <= MAX_DEPTH
    modifies json, json.buf
    ensures json.Valid() && (json.buf == old(json.buf) || fresh(json.buf))
    ensures ok == ItemsText(l, depth).Some?
    ensures ok ==> json.Contents() == old(json.Contents()) + ([ARR_BEGIN] + ItemsText(l, depth).value + [ARR_END])
    decreases l, 2
  {
    hide ItemsText, Text, ItemsDone, Separated;
    json.AppendChar(ARR_BEGIN);
    var cur, comma := l, false;
    ghost var done: seq<Byte> := [];
    ItemsStart(l, depth);
    while cur.Item?
      invariant json.Valid() && (json.buf == old(json.buf) || fresh(json.buf)) && ProperItems(cur) &&
        (cur == l || cur < l)
      invariant json.Contents() == old(json.Contents()) + [ARR_BEGIN] + done && ItemsDone(l, depth, done, cur, comma)
      decreases cur
    {
      ItemsStep(l, depth, done, cur, comma);
      ok := AppendItem(json, cur.head, depth, comma);
      if !ok { return; }
      done := done + Separated(comma, true, Text(cur.head, depth).value);
      comma := true;
      cur := cur.tail;
    }
    ItemsEnd(l, depth, done, cur, comma);
    json.AppendChar(ARR_END);
    ok := true;
  }

  lemma ItemsStart(l: List, depth: nat)
    ensures ItemsDone(l, depth, [], l, false)
  {
  }

  predicate FieldsDone(f: Fields, depth: nat, done: seq<Byte>, cur: Fields, comma: bool) {
    (FieldsText(f, depth).Some? <==> FieldsText(cur, depth).Some?) &&
    (FieldsText(f, depth).Some? ==>
      FieldsText(f, depth).value == done + Separated(comma, cur.Field?, FieldsText(cur, depth).value))
  }

  lemma FieldsStep(f: Fields, depth: nat, done: seq<Byte>, cur: Fields, comma: bool)
    requires FieldsDone(f, depth, done, cur, comma) && cur.Field?
    ensures Text(cur.v, depth).None? ==> FieldsText(f, depth).None?
    ensures Text(cur.v, depth).Some? ==>
      FieldsDone(f, depth, done + Separated(comma, true, Quoted(cur.key) + [COLON] + Text(cur.v, depth).value),
                 cur.rest, true)
  {
    hide FieldsText, Text, Quoted;
    FieldsSome(cur, depth);
    if FieldsText(cur, depth).Some? {
      FieldsTextIs(cur, depth);
      FieldsTextIs(cur.rest, depth);
    }
  }

  lemma FieldsEnd(f: Fields, depth: nat, done: seq<Byte>, cur: Fields, comma: bool)
    requires FieldsDone(f, depth, done, cur, comma) && cur.Done?
    ensures FieldsText(f, depth) == Some(done)
  {
    NoMore(depth);
    assert done + [] == done;
  }

  lemma FieldsStart(f: Fields, depth: nat)
    ensures FieldsDone(f, depth, [], f, false)
  {
  }

  /** One field and the comma in front of it. */
  method AppendField(json: StrBuf, key: seq<Byte>, v: Value, depth: nat, comma: bool) returns (ok: bool)
    requires json.Valid() && Proper(v) && depth <= MAX_DEPTH
    modifies json, json.buf
    ensures json.Valid() && (json.buf == old(json.buf) || fresh(json.buf))
    ensures ok == Text(v, depth).Some?
    ensures ok ==>
      json.Contents() ==
        old(json.Contents()) + Separated(comma, true, Quoted(key) + [COLON] + Text(v, depth).value)
    decreases v, 1
  {
    hide Text, Quoted, Separated;
    ghost var start := json.Contents();
    if comma { json.AppendChar(COMMA); }
    AppendQuoted(json, key);
    json.AppendChar(COLON);
    ok := AppendData(json, v, depth);
    if ok { FieldText(start, comma, Quoted(key), Text(v, depth).value); }
  }

  lemma FieldText(start: seq<Byte>, comma: bool, key: seq<Byte>, t: seq<Byte>)
    ensures
      (if comma then start + [COMMA] else start) + key + [COLON] + t ==
        start + Separated(comma, true, key + [COLON] + t)
  {
  }

  /** `json_append_object` */
  method AppendObject(json: StrBuf, f: Fields, depth: nat) returns (ok: bool)
    requires json.Valid() && ProperFields(f) && depth <= MAX_DEPTH
    modifies json, json.buf
    ensures json.Valid() && (json.buf == old(json.buf) || fresh(json.buf))
    ensures ok == FieldsText(f, depth).Some?
    ensures ok ==> json.Contents() == old(json.Contents()) + ([OBJ_BEGIN] + FieldsText(f, depth).value + [OBJ_END])
    decreases f, 2
  {
    hide FieldsText, Text, Quoted, FieldsDone, Separated;
    json.AppendChar(OBJ_BEGIN);
    var cur, comma := f, false;
    ghost var done: seq<Byte> := [];
    FieldsStart(f, depth);
    while cur.Field?
      invariant json.Valid() && (json.buf == old(json.buf) || fresh(json.buf)) && ProperFields(cur) &&
        (cur == f || cur < f)
      invariant json.Contents() == old(json.Contents()) + [OBJ_BEGIN] + done && FieldsDone(f, depth, done, cur, comma)
      decreases cur
    {
      FieldsStep(f, depth, done, cur, comma);
      ok := AppendField(json, cur.key, cur.v, depth, comma);
      if !ok { return; }
      done := done + Separated(comma, true, Quoted(cur.key) + [COLON] + Text(cur.v, depth).value);
      comma := true;
      cur := cur.rest;
    }
    FieldsEnd(f, depth, done, cur, comma);
    json.AppendChar(OBJ_END);
    ok := true;
  }

  /** `json_encode` */
  method Encode(json: StrBuf, v: Value) returns (text: Option<seq<Byte>>)
    requires json.Valid() && Proper(v)
    modifies json, json.buf
    ensures json.Valid() && text == Text(v, 0)
  {
    json.Reset();
    var ok := AppendData(json, v, 0);
    if !ok { return None; }
    assert [] + Text(v, 0).value == Text(v, 0).value;
    return Some(json.buf[..json.length]);
  }

  // ----- parsing -----

  datatype Outcome<+T> = Failed | Met | Ok(value: T)

  /** What a method that parses has to do with the function that says what is parsed. */
  ghost predicate Agrees<T>(o: Outcome<T>, p: Parse<T>, rest: seq<Byte>) {
    match p
    case Fail => o == Failed
    case Number => o == Met
    case Parsed(v, r) => o == Ok(v) && rest == r
  }

  /** What comes behind an element of a table. */
  datatype After = Stop | More | Neither

  /** `json_parse_t` */
  class Parser {
    const data: seq<Byte>
    var ptr: nat
    const tmp: StrBuf
    var depth: nat

    ghost predicate Valid()
      reads this, tmp
    {
      ptr <= |data| && tmp.buf.Length > |data|
    }

    /** The buffer for strings has room for the whole text. */
    constructor (s: seq<Byte>)
      ensures Valid() && data == s && ptr == 0 && depth == 0 && fresh(tmp) && fresh(tmp.buf)
    {
      data := s;
      ptr := 0;
      depth := 0;
      tmp := new StrBuf(|s|);
    }

    /** The byte `k` behind the cursor; behind the last byte of the text is a zero. */
    function Char(k: nat): (b: Byte)
      requires ptr + k <= |data|
      reads this
      ensures ptr + k < |data| ==> b == data[ptr + k]
      ensures ptr + k == |data| ==> b == 0
    {
      if ptr + k < |data| then data[ptr + k] else 0
    }

    /** `decode_hex4`, which stops at the first byte that is no digit. */
    method DecodeHex4(k: nat) returns (r: int)
      requires ptr + k <= |data|
      ensures r == Hex4(data[ptr..], k)
    {
      ghost var s := data[ptr..];
      var digits: seq<int> := [];
      while |digits| < 4
        invariant |digits| <= 4 && ptr + k + |digits| <= |data|
        invariant forall j :: 0 <= j < |digits| ==> digits[j] == HexDigit(At(s, k + j)) && digits[j] >= 0
      {
        assert Char(k + |digits|) == At(s, k + |digits|);
        var d := HexDigit(Char(k + |digits|));
        if d < 0 {
          NoHex(s, k, |digits|);
          return -1;
        }
        digits := digits + [d];
      }
      return digits[0] * 0x1000 + digits[1] * 0x100 + digits[2] * 0x10 + digits[3];
    }

    /** `json_append_unicode_escape`, at the backslash; `start` is where the string begins. */
    method AppendUnicodeEscape(ghost start: nat) returns (ok: bool)
      requires Valid() && tmp.Valid() && ptr + 2 <= |data| && tmp.length <= ptr - start && start > 0
      modifies this`ptr, tmp`length, tmp.buf
      ensures Valid() && tmp.Valid() && ptr >= old(ptr)
      ensures
        match GetUnicode(old(data[ptr..]))
        case Bad => !ok
        case Got(bytes, rest) =>
          ok && data[ptr..] == rest && tmp.Contents() == old(tmp.Contents()) + bytes && tmp.length <= ptr - start &&
          ptr > old(ptr)
    {
      hide Utf8, Hex4, HexDigit;
      ghost var s := data[ptr..];
      var escapeLen := 6;
      var codepoint := DecodeHex4(2);
      if codepoint < 0 { return false; }
      if codepoint / 0x800 == 0x1B {
        if codepoint / 0x400 % 2 != 0 { return false; }
        assert Char(6) == At(s, 6) && (ptr + 7 <= |data| ==> Char(7) == At(s, 7));
        if Char(6) != BACKSLASH || Char(7) != 117 { return false; }
        var low := DecodeHex4(8);
        if low < 0 { return false; }
        if low / 0x400 != 0x37 { return false; }
        codepoint := codepoint % 0x400 * 0x400 + low % 0x400 + 0x1_0000;
        escapeLen := 12;
      }
      var utf8 := Utf8(codepoint);
      assert s[escapeLen..] == data[ptr + escapeLen..];
      tmp.AppendMemUnsafe(utf8);
      ptr := ptr + escapeLen;
      ok := true;
    }

    /** One round of the loop of `json_next_string_token`. */
    method NextChar(ghost start: nat) returns (ok: bool, ghost bytes: seq<Byte>)
      requires Valid() && tmp.Valid() && 0 < start <= ptr && tmp.length <= ptr - start && Char(0) != QUOTE
      modifies this`ptr, tmp`length, tmp.buf
      ensures Valid() && ptr >= old(ptr)
      ensures if ok then GetChars(old(data[ptr..])) == Before(bytes, GetChars(data[ptr..]))
              else GetChars(old(data[ptr..])) == Bad
      ensures ok ==> ptr > old(ptr) && tmp.Valid() && tmp.length <= ptr - start
      ensures ok ==> tmp.Contents() == old(tmp.Contents()) + bytes
    {
      hide GetUnicode, GetChars;
      ghost var left, at := data[ptr..], ptr;
      assert Char(0) == At(left, 0);
      OneChar(left);
      var ch := Char(0);
      if ch == 0 { return false, []; }
      if ch == BACKSLASH {
        assert Char(1) == At(left, 1);
        ch := Unescape(Char(1));
        if ch == 117 {
          ok := AppendUnicodeEscape(start);
          return ok, if ok then GetUnicode(left).value else [];
        }
        if ch == 0 { return false, []; }
        ptr := ptr + 1;
      }
      tmp.AppendCharUnsafe(ch);
      ptr := ptr + 1;
      assert left[ptr - at..] == data[ptr..];
      return true, [ch];
    }

    /** `json_next_string_token`, at the opening quote. What is appended without a check has room, because it is
        shorter than what has been read. */
    method NextString() returns (t: Token)
      requires Valid() && ptr < |data| && data[ptr] == QUOTE
      modifies this`ptr, tmp`length, tmp.buf
      ensures Valid() && ptr > old(ptr)
      ensures
        match GetChars(old(data[ptr + 1..]))
        case Bad => t == Wrong
        case Got(bytes, rest) => t == String(bytes) && data[ptr..] == rest
    {
      hide GetChars;
      ptr := ptr + 1;
      tmp.Reset();
      ghost var start, s := ptr, data[ptr..];
      BeforeNothing(GetChars(s));
      while Char(0) != QUOTE
        invariant Valid() && tmp.Valid() && start <= ptr && tmp.length <= ptr - start
        invariant GetChars(s) == Before(tmp.Contents(), GetChars(data[ptr..]))
        decreases |data| - ptr
      {
        ghost var done := tmp.Contents();
        ghost var bytes;
        var ok: bool;
        ok, bytes := NextChar(start);
        if !ok { return Wrong; }
        BeforeTwice(done, bytes, GetChars(data[ptr..]));
      }
      OneChar(data[ptr..]);
      assert data[ptr..][1..] == data[ptr + 1..];
      ptr := ptr + 1;
      tmp.EnsureNull();
      return String(tmp.buf[..tmp.length]);
    }

    /** `strncmp` with a word: it does not look behind the first byte that differs. */
    method StartsWith(word: seq<Byte>) returns (r: bool)
      requires ptr <= |data| && forall k :: 0 <= k < |word| ==> word[k] != 0
      ensures r <==> word <= data[ptr..]
    {
      ghost var s := data[ptr..];
      var i := 0;
      while i < |word|
        invariant 0 <= i <= |word| && ptr + i <= |data| && forall k :: 0 <= k < i ==> word[k] == s[k]
      {
        if Char(i) != word[i] {
          assert i < |s| ==> s[i] != word[i];
          return false;
        }
        i := i + 1;
      }
      assert word == s[..|word|];
      return true;
    }

    /** `json_is_invalid_number`, for a byte that begins no digit. */
    method IsInvalidNumber() returns (r: bool)
      requires ptr <= |data|
      ensures r <==> InvalidNumber(data[ptr..])
    {
      ghost var s := data[ptr..];
      assert Char(0) == At(s, 0) && (ptr + 1 <= |data| ==> Char(1) == At(s, 1)) &&
        (ptr + 2 <= |data| ==> Char(2) == At(s, 2));
      r := Char(0) == 43 ||
        (SameLetter(Char(0), 105) && SameLetter(Char(1), 110) && SameLetter(Char(2), 102)) ||
        (SameLetter(Char(0), 110) && SameLetter(Char(1), 97) && SameLetter(Char(2), 110));
    }

    /** The last part of `json_next_token`: words, and numbers that are not valid JSON. */
    method NextWord() returns (t: Token)
      requires Valid()
      modifies this`ptr
      ensures Valid() && ptr >= old(ptr)
      ensures
        var s := old(data[ptr..]);
        if TRUE <= s then t == Boolean(true) && data[ptr..] == s[4..]
        else if FALSE <= s then t == Boolean(false) && data[ptr..] == s[5..]
        else if NULL <= s then t == NullToken && data[ptr..] == s[4..]
        else if InvalidNumber(s) then t == Numeric && data[ptr..] == s
        else t == Wrong
    {
      ghost var left := data[ptr..];
      var word := StartsWith(TRUE);
      if word {
        assert left[4..] == data[ptr + 4..];
        ptr := ptr + 4;
        return Boolean(true);
      }
      word := StartsWith(FALSE);
      if word {
        assert left[5..] == data[ptr + 5..];
        ptr := ptr + 5;
        return Boolean(false);
      }
      word := StartsWith(NULL);
      if word {
        assert left[4..] == data[ptr + 4..];
        ptr := ptr + 4;
        return NullToken;
      }
      var number := IsInvalidNumber();
      return if number then Numeric else Wrong;
    }

    /** `json_next_token`. After an error the cursor is where the error is. */
    method NextToken() returns (t: Token)
      requires Valid()
      modifies this`ptr, tmp`length, tmp.buf
      ensures Valid()
      ensures
        var r := JsonText.NextToken(old(data[ptr..]));
        t == r.0 && (t != Wrong ==> data[ptr..] == r.1)
      ensures ptr >= old(ptr)
    {
      hide GetChars, Single, JsonText.NextToken;
      ghost var s := data[ptr..];
      while IsSpace(Char(0))
        invariant Valid() && ptr >= old(ptr) && JsonText.NextToken(s) == JsonText.NextToken(data[ptr..])
        decreases |data| - ptr
      {
        OneToken(data[ptr..]);
        assert data[ptr..][1..] == data[ptr + 1..];
        ptr := ptr + 1;
      }
      ghost var left := data[ptr..];
      OneToken(left);
      var c := Char(0);
      assert c == At(left, 0);
      if c == 0 { return End; }
      if Single(c).Some? {
        assert left[1..] == data[ptr + 1..];
        ptr := ptr + 1;
        return Single(c).value;
      }
      if !Longer(c) { return Wrong; }
      if c == QUOTE {
        assert left[1..] == data[ptr + 1..];
        t := NextString();
        return;
      }
      if c == 45 || 48 <= c <= 57 { return Numeric; }
      t := NextWord();
    }

    /** What comes behind an element or a field: the end of the table, or a comma and the next token. */
    method Continue(end: Token) returns (next: After, t: Token)
      requires Valid() && end != Wrong && end != Comma
      modifies this`ptr, tmp`length, tmp.buf
      ensures Valid() && ptr >= old(ptr) && (next == More ==> ptr > old(ptr))
      ensures
        var r := JsonText.NextToken(old(data[ptr..]));
        var q := JsonText.NextToken(r.1);
        (r.0 == end ==> next == Stop && data[ptr..] == r.1) && (r.0 != end && r.0 != Comma ==> next == Neither) &&
        (r.0 == Comma ==> next == More && t == q.0 && (t != Wrong ==> data[ptr..] == q.1))
    {
      hide JsonText.NextToken;
      t := NextToken();
      if t == end { return Stop, t; }
      if t != Comma { return Neither, t; }
      t := NextToken();
      next := More;
    }

    /** `json_process_value` */
    method ProcessValue(t: Token) returns (o: Outcome<Value>)
      requires Valid()
      modifies this`ptr, this`depth, tmp`length, tmp.buf
      ensures Valid() && ptr >= old(ptr)
      ensures Agrees(o, GetValue(t, old(data[ptr..]), old(depth)), data[ptr..]) && (o.Ok? ==> depth == old(depth))
      decreases |data| - ptr, if t.ArrBegin? || t.ObjBegin? then 3 else 0
    {
      hide JsonText.NextToken, GetItems, GetFields;
      match t
      case String(s) => return Ok(Str(s));
      case Boolean(b) => return Ok(Bool(b));
      case NullToken => return Ok(Null);
      case Numeric => return Met;
      case ArrBegin => o := ParseArray();
      case ObjBegin => o := ParseObject();
      case _ => return Failed;
    }

    /** `json_parse_array_context` */
    method ParseArray() returns (o: Outcome<Value>)
      requires Valid()
      modifies this`ptr, this`depth, tmp`length, tmp.buf
      ensures Valid() && ptr >= old(ptr)
      ensures Agrees(o, GetValue(ArrBegin, old(data[ptr..]), old(depth)), data[ptr..]) &&
        (o.Ok? ==> depth == old(depth))
      decreases |data| - ptr, 2
    {
      hide JsonText.NextToken, GetValue, GetItems, GetFields, Behind, ToList;
      ghost var d, s0 := depth, data[ptr..];
      depth := depth + 1;
      if depth > MAX_DEPTH {
        TooDeep(s0, d);
        return Failed;
      }
      GetArr(s0, d);
      WrongItem(JsonText.NextToken(s0).1, d + 1);
      var t := NextToken();
      if t == ArrEnd {
        depth := depth - 1;
        return Ok(Arr(Empty));
      }
      ghost var p := GetItems(t, data[ptr..], d + 1);
      var arr: seq<Value> := [];
      WrongItem(data[ptr..], d + 1);
      OnlyRest(p);
      while true
        invariant Valid() && ptr >= old(ptr) && depth == d + 1
        invariant (t.ArrBegin? || t.ObjBegin?) ==> ptr > old(ptr)
        invariant p == Behind(arr, GetItems(t, data[ptr..], d + 1))
        invariant GetValue(ArrBegin, s0, d) == AsArr(p)
        decreases |data| - ptr
      {
        ItemRound(p, arr, t, data[ptr..], d + 1);
        o := ProcessValue(t);
        if !o.Ok? { return; }
        arr := arr + [o.value];
        WrongItem(JsonText.NextToken(JsonText.NextToken(data[ptr..]).1).1, d + 1);
        var next: After;
        next, t := Continue(ArrEnd);
        if next == Stop {
          depth := depth - 1;
          return Ok(Arr(ToList(arr, Empty)));
        }
        if next == Neither { return Failed; }
        WrongItem(data[ptr..], d + 1);
      }
    }

    /** The colon and the value behind the key of a field. */
    method FieldValue() returns (o: Outcome<Value>)
      requires Valid()
      modifies this`ptr, this`depth, tmp`length, tmp.buf
      ensures Valid() && ptr >= old(ptr)
      ensures
        var r := JsonText.NextToken(old(data[ptr..]));
        var q := JsonText.NextToken(r.1);
        if r.0 != Colon then o == Failed else Agrees(o, GetValue(q.0, q.1, old(depth)), data[ptr..])
      ensures o.Ok? ==> depth == old(depth) && ptr > old(ptr)
      decreases |data| - ptr, 1
    {
      hide JsonText.NextToken, GetValue;
      var t1 := NextToken();
      if t1 != Colon { return Failed; }
      WrongFails(JsonText.NextToken(data[ptr..]).1, depth);
      var t2 := NextToken();
      WrongFails(data[ptr..], depth);
      o := ProcessValue(t2);
    }

    /** `json_parse_object_context`; an object is its assignments in the order of the text. */
    method ParseObject() returns (o: Outcome<Value>)
      requires Valid()
      modifies this`ptr, this`depth, tmp`length, tmp.buf
      ensures Valid() && ptr >= old(ptr)
      ensures Agrees(o, GetValue(ObjBegin, old(data[ptr..]), old(depth)), data[ptr..]) &&
        (o.Ok? ==> depth == old(depth))
      decreases |data| - ptr, 2
    {
      hide JsonText.NextToken, GetValue, GetItems, GetFields, BehindFields, ToFields;
      ghost var d, s0 := depth, data[ptr..];
      depth := depth + 1;
      if depth > MAX_DEPTH {
        TooDeep(s0, d);
        return Failed;
      }
      GetObj(s0, d);
      WrongField(JsonText.NextToken(s0).1, d + 1);
      var t := NextToken();
      if t == ObjEnd {
        depth := depth - 1;
        return Ok(Obj(Done));
      }
      ghost var p := GetFields(t, data[ptr..], d + 1);
      var fields: seq<(seq<Byte>, Value)> := [];
      WrongField(data[ptr..], d + 1);
      OnlyFields(p);
      while true
        invariant Valid() && ptr >= old(ptr) && depth == d + 1
        invariant p == BehindFields(fields, GetFields(t, data[ptr..], d + 1))
        invariant GetValue(ObjBegin, s0, d) == AsObj(p)
        decreases |data| - ptr
      {
        FieldRound(p, fields, t, data[ptr..], d + 1);
        if !t.String? { return Failed; }
        var v := FieldValue();
        if v == Met { return Met; }
        if v == Failed { return Failed; }
        fields := fields + [(t.s, v.value)];
        WrongField(JsonText.NextToken(JsonText.NextToken(data[ptr..]).1).1, d + 1);
        var next: After;
        next, t := Continue(ObjEnd);
        if next == Stop {
          depth := depth - 1;
          return Ok(Obj(ToFields(fields, Done)));
        }
        if next == Neither { return Failed; }
        WrongField(data[ptr..], d + 1);
      }
    }
  }

  /** The elements of an array are put behind each other. */
  function ToList(arr: seq<Value>, l: List): List
    decreases |arr|
  {
    if arr == [] then l else ToList(arr[..|arr| - 1], Item(arr[|arr| - 1], l))
  }

  function Behind(arr: seq<Value>, p: Parse<List>): Parse<List> {
    match p
    case Fail => Fail
    case Number => Number
    case Parsed(l, rest) => Parsed(ToList(arr, l), rest)
  }

  lemma OnlyRest(p: Parse<List>)
    ensures Behind([], p) == p
  {
  }

  lemma WrongFails(s: seq<Byte>, depth: nat)
    ensures GetValue(Wrong, s, depth) == Fail
  {
  }

  lemma WrongItem(s: seq<Byte>, depth: nat)
    ensures GetItems(Wrong, s, depth) == Fail
  {
  }

  lemma WrongField(s: seq<Byte>, depth: nat)
    ensures GetFields(Wrong, s, depth) == Fail
  {
  }

  lemma TooDeep(s: seq<Byte>, depth: nat)
    requires depth + 1 > MAX_DEPTH
    ensures GetValue(ArrBegin, s, depth) == Fail && GetValue(ObjBegin, s, depth) == Fail
  {
  }

  function ToFields(fields: seq<(seq<Byte>, Value)>, f: Fields): Fields
    decreases |fields|
  {
    if fields == [] then f
    else
      var n := |fields| - 1;
      ToFields(fields[..n], Field(fields[n].0, fields[n].1, f))
  }

  function BehindFields(fields: seq<(seq<Byte>, Value)>, p: Parse<Fields>): Parse<Fields> {
    match p
    case Fail => Fail
    case Number => Number
    case Parsed(f, rest) => Parsed(ToFields(fields, f), rest)
  }

  lemma OnlyFields(p: Parse<Fields>)
    ensures BehindFields([], p) == p
  {
  }

  lemma FieldBehind(fields: seq<(seq<Byte>, Value)>, x: (seq<Byte>, Value), f: Fields)
    ensures ToFields(fields + [x], f) == ToFields(fields, Field(x.0, x.1, f))
  {
    var all := fields + [x];
    assert all[..|all| - 1] == fields;
  }

  /** One round of the loop over an object. */
  lemma FieldRound(p: Parse<Fields>, fields: seq<(seq<Byte>, Value)>, t: Token, s: seq<Byte>, depth: nat)
    requires p == BehindFields(fields, GetFields(t, s, depth))
    ensures !t.String? ==> p == Fail
    ensures t.String? ==>
      var r := NextToken(s);
      var q := NextToken(r.1);
      var x := GetValue(q.0, q.1, depth);
      (r.0 != Colon || x == Fail ==> p == Fail) && (r.0 == Colon && x == Number ==> p == Number) &&
      (r.0 == Colon && x.Parsed? ==>
        var u := NextToken(x.rest);
        var w := NextToken(u.1);
        var more := fields + [(t.s, x.value)];
        (u.0 == ObjEnd ==> p == Parsed(ToFields(more, Done), u.1)) && (u.0 != ObjEnd && u.0 != Comma ==> p == Fail) &&
        (u.0 == Comma ==> p == BehindFields(more, GetFields(w.0, w.1, depth))))
  {
    hide NextToken, GetValue, GetItems, ToFields;
    if t.String? {
      var q := NextToken(NextToken(s).1);
      var x := GetValue(q.0, q.1, depth);
      if x.Parsed? {
        var u := NextToken(x.rest);
        FieldBehind(fields, (t.s, x.value), Done);
        var g := GetFields(NextToken(u.1).0, NextToken(u.1).1, depth);
        if g.Parsed? { FieldBehind(fields, (t.s, x.value), g.value); }
      }
    }
  }

  lemma ItemBehind(arr: seq<Value>, v: Value, l: List)
    ensures ToList(arr + [v], l) == ToList(arr, Item(v, l))
  {
    var all := arr + [v];
    assert all[..|all| - 1] == arr;
  }

  /** One round of the loop over an array. */
  lemma ItemRound(p: Parse<List>, arr: seq<Value>, t: Token, s: seq<Byte>, depth: nat)
    requires p == Behind(arr, GetItems(t, s, depth))
    ensures
      var x := GetValue(t, s, depth);
      (x == Fail ==> p == Fail) && (x == Number ==> p == Number) &&
      (x.Parsed? ==>
        var r := NextToken(x.rest);
        var q := NextToken(r.1);
        var more := arr + [x.value];
        (r.0 == ArrEnd ==> p == Parsed(ToList(more, Empty), r.1)) && (r.0 != ArrEnd && r.0 != Comma ==> p == Fail) &&
        (r.0 == Comma ==> p == Behind(more, GetItems(q.0, q.1, depth))))
  {
    hide NextToken, GetValue, GetFields, ToList;
    var x := GetValue(t, s, depth);
    if x.Parsed? {
      var r := NextToken(x.rest);
      ItemBehind(arr, x.value, Empty);
      var g := GetItems(NextToken(r.1).0, NextToken(r.1).1, depth);
      if g.Parsed? { ItemBehind(arr, x.value, g.value); }
    }
  }

  lemma BeforeTwice(a: seq<Byte>, b: seq<Byte>, r: Read<seq<Byte>>)
    ensures Before(a, Before(b, r)) == Before(a + b, r)
  {
    if r.Got? { assert a + (b + r.value) == a + b + r.value; }
  }

  lemma BeforeNothing(r: Read<seq<Byte>>)
    ensures Before([], r) == r
  {
    if r.Got? { assert [] + r.value == r.value; }
  }

  lemma NoHex(s: seq<Byte>, k: nat, i: nat)
    requires i < 4 && HexDigit(At(s, k + i)) < 0
    ensures Hex4(s, k) == -1
  {
  }

  /** `json_decode` */
  method Decode(s: seq<Byte>) returns (o: Outcome<Value>)
    ensures exists rest :: Agrees(o, JsonText.Decode(s), rest)
  {
    hide GetValue, JsonText.NextToken;
    if |s| >= 2 && (s[0] == 0 || s[1] == 0) {
      assert Agrees<Value>(Failed, JsonText.Decode(s), []);
      return Failed;
    }
    var json := new Parser(s);
    assert s[0..] == s;
    WrongFails(JsonText.NextToken(s).1, 0);
    var t := json.NextToken();
    WrongFails(json.data[json.ptr..], 0);
    o := json.ProcessValue(t);
    if !o.Ok? {
      assert Agrees(o, JsonText.Decode(s), []);
      return;
    }
    t := json.NextToken();
    if t != End { o := Failed; }
    assert Agrees(o, JsonText.Decode(s), json.data[json.ptr..]);
  }

  /** A value that can be written is read back from its text, with the holes of its arrays as null. */
  method WriteAndRead(v: Value) returns (o: Outcome<Value>)
    requires Proper(v) && Depth(v) <= 1000 && Dense(v)
    ensures o == Ok(Back(v))
  {
    hide Text, Back, JsonText.Decode, Depth, Dense, Proper;
    var json := new StrBuf(0);
    Writable(v, 0);
    var text := Encode(json, v);
    RoundTrip(v);
    o := Decode(text.value);
  }
}
