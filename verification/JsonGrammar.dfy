/** The grammar of RFC 8259 without numbers, and the texts that lua_cjson.c takes: a text is taken exactly if it is
    derived from the grammar, and it is taken as what its derivation means. */
module JsonGrammar {
  import opened Common
  import opened JsonText
  import opened JsonEnd

  // ----- the grammar -----

  type Bytes = seq<Byte>

  /** Space, tab, line feed and carriage return. */
  predicate Spaces(s: Bytes) {
    forall k :: 0 <= k < |s| ==> s[k] == 32 || s[k] == 9 || s[k] == 10 || s[k] == 13
  }

  /** How a character of a string is written (section 7): as it is, by a letter behind a backslash, as one UTF-16 code
      unit in hexadecimal digits, or as two. */
  datatype Char = Plain(b: Byte) | Letter(b: Byte) | Unit(hex: Bytes) | Pair(high: Bytes, low: Bytes)

  predicate IsHex(b: Byte) { 48 <= b <= 57 || 65 <= b <= 70 || 97 <= b <= 102 }

  function HexValue(b: Byte): nat
    requires IsHex(b)
  {
    if b <= 57 then b - 48 else if b <= 70 then b - 55 else b - 87
  }

  predicate FourHex(h: Bytes) { |h| == 4 && forall k :: 0 <= k < 4 ==> IsHex(h[k]) }

  function CodeUnit(h: Bytes): (c: nat)
    requires FourHex(h)
    ensures c < 0x1_0000
  {
    HexValue(h[0]) * 0x1000 + HexValue(h[1]) * 0x100 + HexValue(h[2]) * 0x10 + HexValue(h[3])
  }

  /** The letters behind a backslash, and what they stand for. */
  const LETTERS: map<Byte, Byte> :=
    map[34 := 34, 92 := 92, 47 := 47, 98 := 8, 102 := 12, 110 := 10, 114 := 13, 116 := 9]

  /** The RFC asks for plain characters from 32 on; the reader takes every byte but zero. A surrogate is written with
      its partner. */
  predicate CharOk(c: Char) {
    match c
    case Plain(b) => b != 0 && b != 34 && b != 92
    case Letter(b) => b in LETTERS
    case Unit(h) => FourHex(h) && !(0xD800 <= CodeUnit(h) < 0xE000)
    case Pair(high, low) =>
      FourHex(high) && FourHex(low) && 0xD800 <= CodeUnit(high) < 0xDC00 && 0xDC00 <= CodeUnit(low) < 0xE000
  }

  function CharText(c: Char): Bytes {
    match c
    case Plain(b) => [b]
    case Letter(b) => [92, b]
    case Unit(h) => [92, 117] + h
    case Pair(high, low) => [92, 117] + high + [92, 117] + low
  }

  function CharMeaning(c: Char): Bytes
    requires CharOk(c)
  {
    match c
    case Plain(b) => [b]
    case Letter(b) => [LETTERS[b]]
    case Unit(h) => Utf8(CodeUnit(h))
    case Pair(high, low) => Utf8(0x1_0000 + (CodeUnit(high) - 0xD800) * 0x400 + (CodeUnit(low) - 0xDC00))
  }

  predicate CharsOk(cs: seq<Char>) { forall k :: 0 <= k < |cs| ==> CharOk(cs[k]) }

  function CharsText(cs: seq<Char>): Bytes { if cs == [] then [] else CharText(cs[0]) + CharsText(cs[1..]) }

  function CharsMeaning(cs: seq<Char>): Bytes
    requires CharsOk(cs)
  {
    if cs == [] then [] else CharMeaning(cs[0]) + CharsMeaning(cs[1..])
  }

  /** A derivation of a value; `gap` is the space inside an empty table. */
  datatype Doc =
    | NullDoc
    | BoolDoc(b: bool)
    | StringDoc(cs: seq<Char>)
    | ArrayDoc(gap: Bytes, items: Items)
    | ObjectDoc(gap: Bytes, members: Members)

  /** The elements of an array with the spaces around them. */
  datatype Items = NoItem | OneItem(before: Bytes, v: Doc, after: Bytes, more: Items)

  /** The members of an object: the key, the spaces around the colon, and the value. */
  datatype Members =
    | NoMember
    | OneMember(before: Bytes, key: seq<Char>, g1: Bytes, g2: Bytes, v: Doc, after: Bytes, more: Members)

  predicate DocOk(d: Doc) {
    match d
    case StringDoc(cs) => CharsOk(cs)
    case ArrayDoc(gap, items) => Spaces(gap) && ItemsOk(items)
    case ObjectDoc(gap, members) => Spaces(gap) && MembersOk(members)
    case _ => true
  }

  predicate ItemsOk(l: Items) { l.OneItem? ==> Spaces(l.before) && DocOk(l.v) && Spaces(l.after) && ItemsOk(l.more) }

  predicate MembersOk(m: Members) {
    m.OneMember? ==>
      Spaces(m.before) && CharsOk(m.key) && Spaces(m.g1) && Spaces(m.g2) && DocOk(m.v) && Spaces(m.after) &&
      MembersOk(m.more)
  }

  function Quote(cs: seq<Char>): Bytes { [34] + CharsText(cs) + [34] }

  /** The text of a derivation. */
  function DocText(d: Doc): Bytes {
    match d
    case NullDoc => [110, 117, 108, 108]
    case BoolDoc(b) => if b then [116, 114, 117, 101] else [102, 97, 108, 115, 101]
    case StringDoc(cs) => Quote(cs)
    case ArrayDoc(gap, items) => [91] + (if items.NoItem? then gap else ItemsDoc(items)) + [93]
    case ObjectDoc(gap, members) => [123] + (if members.NoMember? then gap else MembersDoc(members)) + [125]
  }

  function ItemsDoc(l: Items): Bytes {
    if l.NoItem? then []
    else l.before + DocText(l.v) + l.after + if l.more.NoItem? then [] else [44] + ItemsDoc(l.more)
  }

  function MembersDoc(m: Members): Bytes {
    if m.NoMember? then []
    else
      m.before + Quote(m.key) + m.g1 + [58] + m.g2 + DocText(m.v) + m.after +
      if m.more.NoMember? then [] else [44] + MembersDoc(m.more)
  }

  /** What a derivation means. */
  function Meaning(d: Doc): Value
    requires DocOk(d)
  {
    match d
    case NullDoc => Null
    case BoolDoc(b) => Bool(b)
    case StringDoc(cs) => Str(CharsMeaning(cs))
    case ArrayDoc(_, items) => Arr(ItemsMeaning(items))
    case ObjectDoc(_, members) => Obj(MembersMeaning(members))
  }

  function ItemsMeaning(l: Items): List
    requires ItemsOk(l)
  {
    if l.NoItem? then Empty else Item(Meaning(l.v), ItemsMeaning(l.more))
  }

  function MembersMeaning(m: Members): Fields
    requires MembersOk(m)
  {
    if m.NoMember? then Done else Field(CharsMeaning(m.key), Meaning(m.v), MembersMeaning(m.more))
  }

  function Nested(d: Doc): nat {
    match d
    case ArrayDoc(_, items) => 1 + NestedItems(items)
    case ObjectDoc(_, members) => 1 + NestedMembers(members)
    case _ => 0
  }

  function NestedItems(l: Items): nat { if l.NoItem? then 0 else Max(Nested(l.v), NestedItems(l.more)) }

  function NestedMembers(m: Members): nat { if m.NoMember? then 0 else Max(Nested(m.v), NestedMembers(m.more)) }

  // ----- strings -----

  lemma HexIs(b: Byte)
    ensures HexDigit(b) == if IsHex(b) then HexValue(b) else -1
  {
  }

  lemma UnitIs(s: Bytes, k: nat)
    requires k + 4 <= |s|
    ensures Hex4(s, k) == if FourHex(s[k..k + 4]) then CodeUnit(s[k..k + 4]) else -1
  {
    var h := s[k..k + 4];
    assert h[0] == s[k] && h[1] == s[k + 1] && h[2] == s[k + 2] && h[3] == s[k + 3];
    HexIs(s[k]);
    HexIs(s[k + 1]);
    HexIs(s[k + 2]);
    HexIs(s[k + 3]);
  }

  lemma UnitRead(h: Bytes, x: Bytes)
    requires CharOk(Unit(h))
    ensures GetUnicode(CharText(Unit(h)) + x) == Got(CharMeaning(Unit(h)), x)
  {
    hide Utf8, Hex4, CodeUnit;
    var s := CharText(Unit(h)) + x;
    assert s[2..6] == h && s[6..] == x;
    UnitIs(s, 2);
    Halves(CodeUnit(h));
  }

  lemma PairRead(high: Bytes, low: Bytes, x: Bytes)
    requires CharOk(Pair(high, low))
    ensures GetUnicode(CharText(Pair(high, low)) + x) == Got(CharMeaning(Pair(high, low)), x)
  {
    hide Utf8, Hex4, CodeUnit;
    var s := CharText(Pair(high, low)) + x;
    assert s[2..6] == high && s[6] == BACKSLASH && s[7] == 117 && s[8..12] == low && s[12..] == x;
    UnitIs(s, 2);
    UnitIs(s, 8);
    Halves(CodeUnit(high));
    Halves(CodeUnit(low));
  }

  /** One character is read as what it means. */
  lemma CharRead(c: Char, x: Bytes)
    requires CharOk(c)
    ensures GetChars(CharText(c) + x) == Before(CharMeaning(c), GetChars(x))
  {
    hide GetChars, GetUnicode, Utf8, CodeUnit;
    var s := CharText(c) + x;
    OneChar(s);
    match c
    case Plain(b) => assert s[0] == b && s[1..] == x;
    case Letter(b) => assert s[0] == BACKSLASH && s[1] == b && s[2..] == x;
    case Unit(h) =>
      assert s[0] == BACKSLASH && s[1] == 117;
      UnitRead(h, x);
    case Pair(high, low) =>
      assert s[0] == BACKSLASH && s[1] == 117;
      PairRead(high, low, x);
  }

  /** The tests of the source on the bits of a code unit. */
  lemma Halves(c: nat)
    requires c < 0x1_0000
    ensures c / 0x800 == 0x1B <==> 0xD800 <= c < 0xE000
    ensures c / 0x800 == 0x1B ==> (c / 0x400 % 2 == 0 <==> c < 0xDC00)
    ensures c / 0x400 == 0x37 <==> 0xDC00 <= c < 0xE000
    ensures 0xD800 <= c < 0xDC00 ==> c % 0x400 == c - 0xD800
    ensures 0xDC00 <= c < 0xE000 ==> c % 0x400 == c - 0xDC00
  {
  }

  lemma {:induction false} CharsRead(cs: seq<Char>, x: Bytes)
    requires CharsOk(cs)
    ensures GetChars(CharsText(cs) + [QUOTE] + x) == Got(CharsMeaning(cs), x)
  {
    hide GetChars, CharText, CharMeaning, CharOk;
    var s := CharsText(cs) + [QUOTE] + x;
    if cs == [] {
      assert s == [QUOTE] + x && s[1..] == x;
      OneChar(s);
    } else {
      var rest := CharsText(cs[1..]) + [QUOTE] + x;
      assert s == CharText(cs[0]) + rest;
      CharRead(cs[0], rest);
      CharsRead(cs[1..], x);
    }
  }

  /** A character that has been read is a character of the grammar. */
  lemma CharDerived(s: Bytes) returns (c: Char, x: Bytes)
    requires GetChars(s).Got? && At(s, 0) != QUOTE
    ensures CharOk(c) && s == CharText(c) + x && |x| < |s|
  {
    hide GetChars, Utf8, Hex4;
    OneChar(s);
    if s[0] != BACKSLASH {
      c, x := Plain(s[0]), s[1..];
    } else if s[1] != 117 {
      c, x := Letter(s[1]), s[2..];
    } else {
      c, x := EscapeDerived(s);
    }
  }

  lemma EscapeDerived(s: Bytes) returns (c: Char, x: Bytes)
    requires |s| >= 2 && s[0] == BACKSLASH && s[1] == 117 && GetUnicode(s).Got?
    ensures CharOk(c) && s == CharText(c) + x && |x| < |s|
  {
    hide Utf8, Hex4;
    UnitIs(s, 2);
    var u := Hex4(s, 2);
    Halves(u);
    if u / 0x800 != 0x1B {
      c, x := Unit(s[2..6]), s[6..];
    } else {
      UnitIs(s, 8);
      Halves(Hex4(s, 8));
      c, x := Pair(s[2..6], s[8..12]), s[12..];
    }
  }

  /** A string that has been read is a string of the grammar, and means what has been read. */
  lemma {:induction false} CharsDerived(s: Bytes) returns (cs: seq<Char>)
    requires GetChars(s).Got?
    ensures CharsOk(cs) && s == CharsText(cs) + [QUOTE] + GetChars(s).rest && GetChars(s).value == CharsMeaning(cs)
    decreases |s|
  {
    hide GetChars, CharText, CharMeaning, CharOk;
    OneChar(s);
    if At(s, 0) == QUOTE {
      cs := [];
      assert s == [QUOTE] + s[1..];
    } else {
      var c, x := CharDerived(s);
      CharRead(c, x);
      var more := CharsDerived(x);
      cs := [c] + more;
      assert cs[1..] == more;
      assert CharText(c) + (CharsText(more) + [QUOTE] + GetChars(x).rest) == CharsText(cs) + [QUOTE] + GetChars(x).rest;
    }
  }

  // ----- tokens -----

  /** Spaces in front of a token are skipped. */
  lemma {:induction false} SpacesRead(gap: Bytes, s: Bytes)
    requires Spaces(gap)
    ensures NextToken(gap + s) == NextToken(s)
    decreases |gap|
  {
    hide NextToken;
    if gap == [] {
      assert gap + s == s;
    } else {
      OneToken(gap + s);
      assert (gap + s)[1..] == gap[1..] + s;
      SpacesRead(gap[1..], s);
    }
  }

  lemma SpaceSkipped(s: Bytes)
    requires IsSpace(At(s, 0))
    ensures s != [] && NextToken(s) == NextToken(s[1..]) && s == [s[0]] + s[1..]
  {
  }

  /** The spaces in front of a token. */
  lemma {:induction false} SpacesDerived(s: Bytes) returns (gap: Bytes, x: Bytes)
    ensures Spaces(gap) && s == gap + x && NextToken(s) == NextToken(x) && !IsSpace(At(x, 0))
    decreases |s|
  {
    hide NextToken;
    if IsSpace(At(s, 0)) {
      SpaceSkipped(s);
      var more: Bytes;
      more, x := SpacesDerived(s[1..]);
      gap := [s[0]] + more;
      assert gap + x == [s[0]] + (more + x);
    } else {
      gap, x := [], s;
      assert [] + s == s;
    }
  }

  /** The text of a token that stands for itself or for a word. */
  function TokenText(t: Token): Bytes
    requires t.ArrBegin? || t.ArrEnd? || t.ObjBegin? || t.ObjEnd? || t.Comma? || t.Colon? || t.Boolean? || t.NullToken?
  {
    match t
    case ArrBegin => [ARR_BEGIN]
    case ArrEnd => [ARR_END]
    case ObjBegin => [OBJ_BEGIN]
    case ObjEnd => [OBJ_END]
    case Comma => [COMMA]
    case Colon => [COLON]
    case Boolean(b) => if b then TRUE else FALSE
    case NullToken => NULL
  }

  /** A token has been read from its text, behind spaces. */
  lemma TokenDerived(s: Bytes) returns (gap: Bytes)
    requires
      var t := NextToken(s).0;
      t.ArrBegin? || t.ArrEnd? || t.ObjBegin? || t.ObjEnd? || t.Comma? || t.Colon? || t.Boolean? || t.NullToken?
    ensures Spaces(gap) && s == gap + TokenText(NextToken(s).0) + NextToken(s).1
  {
    hide NextToken, GetChars;
    var x: Bytes;
    gap, x := SpacesDerived(s);
    OneToken(x);
    var t, rest := NextToken(s).0, NextToken(s).1;
    assert x == TokenText(t) + rest;
    assert gap + TokenText(t) + rest == gap + (TokenText(t) + rest);
  }

  lemma StringDerived(s: Bytes) returns (gap: Bytes, cs: seq<Char>)
    requires NextToken(s).0.String?
    ensures Spaces(gap) && CharsOk(cs) && s == gap + Quote(cs) + NextToken(s).1 && NextToken(s).0.s == CharsMeaning(cs)
  {
    hide NextToken, GetChars, CharsMeaning, CharsText, CharsOk;
    var x: Bytes;
    gap, x := SpacesDerived(s);
    OneToken(x);
    cs := CharsDerived(x[1..]);
    assert x == [QUOTE] + x[1..];
    assert s == gap + Quote(cs) + NextToken(s).1;
  }

  // ----- derived texts are read -----

  lemma QuoteRead(cs: seq<Char>, x: Bytes)
    requires CharsOk(cs)
    ensures NextToken(Quote(cs) + x) == (String(CharsMeaning(cs)), x)
  {
    hide NextToken, GetChars, CharsMeaning, CharsText;
    var s := Quote(cs) + x;
    assert s[0] == QUOTE && s[1..] == CharsText(cs) + [QUOTE] + x;
    OneToken(s);
    CharsRead(cs, x);
  }

  lemma SingleRead(gap: Bytes, b: Byte, x: Bytes)
    requires Spaces(gap) && Single(b).Some?
    ensures NextToken(gap + [b] + x) == (Single(b).value, x)
  {
    hide NextToken;
    assert gap + [b] + x == gap + ([b] + x);
    SpacesRead(gap, [b] + x);
    SingleBack(b, x);
  }

  lemma SimpleRead(d: Doc, depth: nat, x: Bytes)
    requires DocOk(d) && !d.ArrayDoc? && !d.ObjectDoc?
    ensures
      var r := NextToken(DocText(d) + x);
      Begins(r.0) && GetValue(r.0, r.1, depth) == Parsed(Meaning(d), x)
  {
    hide NextToken, CharsMeaning, Quote, CharsOk;
    WordsBack(x);
    if d.StringDoc? { QuoteRead(d.cs, x); }
  }

  lemma {:induction false} DocRead(d: Doc, depth: nat, x: Bytes)
    requires DocOk(d) && depth + Nested(d) <= MAX_DEPTH
    ensures
      var r := NextToken(DocText(d) + x);
      Begins(r.0) && GetValue(r.0, r.1, depth) == Parsed(Meaning(d), x)
    decreases d, 0
  {
    hide NextToken, GetValue, GetItems, GetFields, ItemsDoc, MembersDoc, ItemsMeaning, MembersMeaning;
    match d
    case ArrayDoc(gap, items) =>
      var s := (if items.NoItem? then gap else ItemsDoc(items)) + [ARR_END] + x;
      assert DocText(d) + x == [ARR_BEGIN] + s;
      SingleBack(ARR_BEGIN, s);
      GetArr(s, depth);
      NoneMeans();
      if items.NoItem? { SingleRead(gap, ARR_END, x); } else { ItemsRead(items, depth + 1, x); }
    case ObjectDoc(gap, members) =>
      var s := (if members.NoMember? then gap else MembersDoc(members)) + [OBJ_END] + x;
      assert DocText(d) + x == [OBJ_BEGIN] + s;
      SingleBack(OBJ_BEGIN, s);
      GetObj(s, depth);
      NoneMeans();
      if members.NoMember? { SingleRead(gap, OBJ_END, x); } else { MembersRead(members, depth + 1, x); }
    case _ => SimpleRead(d, depth, x);
  }

  lemma NoneMeans()
    ensures ItemsMeaning(NoItem) == Empty && MembersMeaning(NoMember) == Done
  {
  }

  lemma {:induction false} ItemsRead(l: Items, depth: nat, x: Bytes)
    requires l.OneItem? && ItemsOk(l) && depth + NestedItems(l) <= MAX_DEPTH
    ensures
      var r := NextToken(ItemsDoc(l) + [ARR_END] + x);
      Begins(r.0) && GetItems(r.0, r.1, depth) == Parsed(ItemsMeaning(l), x)
    decreases l, 1
  {
    hide NextToken, GetValue, GetItems, GetFields, DocText, Meaning, DocOk;
    var tail := if l.more.NoItem? then [ARR_END] + x else [COMMA] + (ItemsDoc(l.more) + [ARR_END] + x);
    var s := ItemsDoc(l) + [ARR_END] + x;
    ItemsAround(l, x);
    SpacesRead(l.before, DocText(l.v) + (l.after + tail));
    DocRead(l.v, depth, l.after + tail);
    JsonText.OneItem(NextToken(s).0, NextToken(s).1, depth);
    if l.more.NoItem? {
      assert l.after + tail == l.after + [ARR_END] + x;
      SingleRead(l.after, ARR_END, x);
      NoneMeans();
    } else {
      assert l.after + tail == l.after + [COMMA] + (ItemsDoc(l.more) + [ARR_END] + x);
      SingleRead(l.after, COMMA, ItemsDoc(l.more) + [ARR_END] + x);
      ItemsRead(l.more, depth, x);
    }
  }

  lemma ItemsAround(l: Items, x: Bytes)
    requires l.OneItem?
    ensures
      var tail := if l.more.NoItem? then [ARR_END] + x else [COMMA] + (ItemsDoc(l.more) + [ARR_END] + x);
      ItemsDoc(l) + [ARR_END] + x == l.before + (DocText(l.v) + (l.after + tail))
  {
    hide DocText;
  }

  lemma {:induction false} MembersRead(m: Members, depth: nat, x: Bytes)
    requires m.OneMember? && MembersOk(m) && depth + NestedMembers(m) <= MAX_DEPTH
    ensures
      var r := NextToken(MembersDoc(m) + [OBJ_END] + x);
      Begins(r.0) && GetFields(r.0, r.1, depth) == Parsed(MembersMeaning(m), x)
    decreases m, 1
  {
    hide NextToken, GetValue, GetItems, GetFields, DocText, Meaning, DocOk, Quote, CharsMeaning, CharsOk;
    var tail := if m.more.NoMember? then [OBJ_END] + x else [COMMA] + (MembersDoc(m.more) + [OBJ_END] + x);
    var s := MembersDoc(m) + [OBJ_END] + x;
    MemberStart(m, depth, x, tail);
    JsonText.OneField(NextToken(s).0, NextToken(s).1, depth);
    if m.more.NoMember? {
      assert m.after + tail == m.after + [OBJ_END] + x;
      SingleRead(m.after, OBJ_END, x);
      NoneMeans();
    } else {
      assert m.after + tail == m.after + [COMMA] + (MembersDoc(m.more) + [OBJ_END] + x);
      SingleRead(m.after, COMMA, MembersDoc(m.more) + [OBJ_END] + x);
      MembersRead(m.more, depth, x);
    }
  }

  /** The key, the colon and the value of the first member. */
  lemma {:induction false} MemberStart(m: Members, depth: nat, x: Bytes, tail: Bytes)
    requires m.OneMember? && MembersOk(m) && depth + NestedMembers(m) <= MAX_DEPTH
    requires tail == if m.more.NoMember? then [OBJ_END] + x else [COMMA] + (MembersDoc(m.more) + [OBJ_END] + x)
    ensures
      var r := NextToken(MembersDoc(m) + [OBJ_END] + x);
      var c := NextToken(r.1);
      var v := NextToken(c.1);
      r.0 == String(CharsMeaning(m.key)) && c.0 == Colon &&
      GetValue(v.0, v.1, depth) == Parsed(Meaning(m.v), m.after + tail)
    decreases m, 0
  {
    hide NextToken, GetValue, DocText, Meaning, DocOk, Quote, CharsMeaning, CharsOk;
    var value := m.g2 + (DocText(m.v) + (m.after + tail));
    MembersAround(m, x);
    SpacesRead(m.before, Quote(m.key) + (m.g1 + [COLON] + value));
    QuoteRead(m.key, m.g1 + [COLON] + value);
    SingleRead(m.g1, COLON, value);
    SpacesRead(m.g2, DocText(m.v) + (m.after + tail));
    DocRead(m.v, depth, m.after + tail);
  }

  lemma Assoc(a: Bytes, b: Bytes, c: Bytes)
    ensures a + b + c == a + (b + c)
  {
  }

  lemma Regroup(a: Bytes, b: Bytes, c: Bytes, d: Bytes, e: Bytes, f: Bytes, g: Bytes, h: Bytes)
    ensures a + b + c + d + e + f + g + h == a + (b + (c + d + (e + (f + (g + h)))))
  {
    var t := e + (f + (g + h));
    Assoc(a + b + c + d + e + f, g, h);
    Assoc(a + b + c + d + e, f, g + h);
    Assoc(a + b + c + d, e, f + (g + h));
    Assoc(a + b, c, d);
    Assoc(a + b, c + d, t);
    Assoc(a, b, c + d + t);
  }

  lemma MembersAround(m: Members, x: Bytes)
    requires m.OneMember?
    ensures
      var tail := if m.more.NoMember? then [OBJ_END] + x else [COMMA] + (MembersDoc(m.more) + [OBJ_END] + x);
      var value := m.g2 + (DocText(m.v) + (m.after + tail));
      MembersDoc(m) + [OBJ_END] + x == m.before + (Quote(m.key) + (m.g1 + [COLON] + value))
  {
    hide DocText, Quote;
    var more := MembersDoc(m.more);
    var last := if m.more.NoMember? then [] else [COMMA] + more;
    var start := m.before + Quote(m.key) + m.g1 + [COLON] + m.g2 + DocText(m.v) + m.after;
    assert MembersDoc(m) == start + last;
    Assoc(start, last, [OBJ_END]);
    Assoc(start, last + [OBJ_END], x);
    Assoc([COMMA], more, [OBJ_END]);
    Assoc([COMMA], more + [OBJ_END], x);
    assert [] + [OBJ_END] == [OBJ_END];
    Regroup(m.before, Quote(m.key), m.g1, [COLON], m.g2, DocText(m.v), m.after, last + [OBJ_END] + x);
  }

  // ----- what is read is derived -----

  lemma {:induction false} DocDerived(s: Bytes, depth: nat) returns (gap: Bytes, d: Doc)
    requires depth <= MAX_DEPTH && GetValue(NextToken(s).0, NextToken(s).1, depth).Parsed?
    ensures
      var p := GetValue(NextToken(s).0, NextToken(s).1, depth);
      Spaces(gap) && DocOk(d) && s == gap + DocText(d) + p.rest && Meaning(d) == p.value &&
        depth + Nested(d) <= MAX_DEPTH
    decreases |s|, 0
  {
    hide NextToken, GetItems, GetFields, ItemsDoc, MembersDoc, ItemsMeaning, MembersMeaning, CharsMeaning, Quote,
      CharsOk;
    var t, x := NextToken(s).0, NextToken(s).1;
    NoneMeans();
    if t.String? {
      var cs: seq<Char>;
      gap, cs := StringDerived(s);
      d := StringDoc(cs);
    } else if t.Boolean? || t.NullToken? {
      gap := TokenDerived(s);
      d := if t.NullToken? then NullDoc else BoolDoc(t.b);
    } else if t.ArrBegin? {
      gap := TokenDerived(s);
      GetArr(x, depth);
      if NextToken(x).0 == ArrEnd {
        var g := TokenDerived(x);
        d := ArrayDoc(g, NoItem);
        Around(gap, ARR_BEGIN, g, ARR_END, NextToken(x).1);
      } else {
        var items := ItemsDerived(x, depth + 1);
        d := ArrayDoc([], items);
        Around(gap, ARR_BEGIN, ItemsDoc(items), ARR_END, GetItems(NextToken(x).0, NextToken(x).1, depth + 1).rest);
      }
    } else {
      assert t.ObjBegin?;
      gap := TokenDerived(s);
      GetObj(x, depth);
      if NextToken(x).0 == ObjEnd {
        var g := TokenDerived(x);
        d := ObjectDoc(g, NoMember);
        Around(gap, OBJ_BEGIN, g, OBJ_END, NextToken(x).1);
      } else {
        var members := MembersDerived(x, depth + 1);
        d := ObjectDoc([], members);
        Around(gap, OBJ_BEGIN, MembersDoc(members), OBJ_END, GetFields(NextToken(x).0, NextToken(x).1, depth + 1).rest);
      }
    }
  }

  lemma Around(gap: Bytes, a: Byte, inner: Bytes, b: Byte, rest: Bytes)
    ensures gap + [a] + (inner + [b] + rest) == gap + ([a] + inner + [b]) + rest
  {
  }

  lemma {:induction false} ItemsDerived(s: Bytes, depth: nat) returns (l: Items)
    requires depth <= MAX_DEPTH && GetItems(NextToken(s).0, NextToken(s).1, depth).Parsed?
    ensures
      var p := GetItems(NextToken(s).0, NextToken(s).1, depth);
      l.OneItem? && ItemsOk(l) && s == ItemsDoc(l) + [ARR_END] + p.rest && ItemsMeaning(l) == p.value &&
      depth + NestedItems(l) <= MAX_DEPTH
    decreases |s|, 1
  {
    hide NextToken, GetValue, GetItems, GetFields, DocText, Meaning, DocOk, Nested;
    var t, x := NextToken(s).0, NextToken(s).1;
    JsonText.OneItem(t, x, depth);
    var before, d := DocDerived(s, depth);
    var y := GetValue(t, x, depth).rest;
    var after := TokenDerived(y);
    var u := NextToken(y);
    var more := NoItem;
    if u.0 == Comma { more := ItemsDerived(u.1, depth); }
    l := OneItem(before, d, after, more);
    NoneMeans();
    ItemsAround(l, GetItems(t, x, depth).rest);
    assert after + [if u.0 == Comma then COMMA else ARR_END] + u.1 == y;
    ItemsGlue(before, DocText(d), after, if u.0 == Comma then COMMA else ARR_END, u.1);
  }

  lemma ItemsGlue(before: Bytes, d: Bytes, after: Bytes, b: Byte, rest: Bytes)
    ensures before + d + (after + [b] + rest) == before + (d + (after + ([b] + rest)))
  {
  }

  lemma {:induction false} MembersDerived(s: Bytes, depth: nat) returns (m: Members)
    requires depth <= MAX_DEPTH && GetFields(NextToken(s).0, NextToken(s).1, depth).Parsed?
    ensures
      var p := GetFields(NextToken(s).0, NextToken(s).1, depth);
      m.OneMember? && MembersOk(m) && s == MembersDoc(m) + [OBJ_END] + p.rest && MembersMeaning(m) == p.value &&
      depth + NestedMembers(m) <= MAX_DEPTH
    decreases |s|, 1
  {
    hide NextToken, GetValue, GetItems, GetFields, DocText, Meaning, DocOk, Nested, Quote, CharsMeaning, CharsOk;
    var t, x := NextToken(s).0, NextToken(s).1;
    JsonText.OneField(t, x, depth);
    var before, key := StringDerived(s);
    var g1 := TokenDerived(x);
    var x1 := NextToken(x).1;
    var g2, d := DocDerived(x1, depth);
    var y := GetValue(NextToken(x1).0, NextToken(x1).1, depth).rest;
    var after := TokenDerived(y);
    var u := NextToken(y);
    var more := NoMember;
    if u.0 == Comma { more := MembersDerived(u.1, depth); }
    m := OneMember(before, key, g1, g2, d, after, more);
    NoneMeans();
    MembersAround(m, GetFields(t, x, depth).rest);
    assert after + [if u.0 == Comma then COMMA else OBJ_END] + u.1 == y;
    MembersGlue(before, Quote(key), g1, g2, DocText(d), after, if u.0 == Comma then COMMA else OBJ_END, u.1);
  }

  lemma MembersGlue(before: Bytes, key: Bytes, g1: Bytes, g2: Bytes, d: Bytes, after: Bytes, b: Byte, rest: Bytes)
    ensures before + key + (g1 + [COLON] + (g2 + d + (after + [b] + rest))) ==
      before + (key + (g1 + [COLON] + (g2 + (d + (after + ([b] + rest))))))
  {
    var t := d + (after + ([b] + rest));
    Assoc(after, [b], rest);
    Assoc(g2, d, after + [b] + rest);
    Assoc(before, key, g1 + [COLON] + (g2 + t));
  }

  // ----- the texts that are taken -----

  /** The whole text: a derivation with spaces around it. */
  ghost predicate IsText(s: Bytes, d: Doc) {
    DocOk(d) && Nested(d) <= 1000 &&
    exists before, after :: Spaces(before) && Spaces(after) && s == before + DocText(d) + after
  }

  /** A text without a zero byte is taken exactly if it is derived, and as what its derivation means. */
  lemma TakenExactly(s: Bytes, v: Value)
    requires 0 !in s
    ensures Decode(s) == Parsed(v, []) <==> exists d :: IsText(s, d) && Meaning(d) == v
  {
    if Decode(s) == Parsed(v, []) {
      var d := TextDerived(s);
      assert IsText(s, d) && Meaning(d) == v;
    }
    if d :| IsText(s, d) && Meaning(d) == v { TextRead(s, d); }
  }

  lemma TextRead(s: Bytes, d: Doc)
    requires 0 !in s && IsText(s, d)
    ensures Decode(s) == Parsed(Meaning(d), [])
  {
    hide NextToken, GetValue, DocText, Meaning, DocOk;
    var before, after :| Spaces(before) && Spaces(after) && s == before + DocText(d) + after;
    assert s == before + (DocText(d) + after);
    SpacesRead(before, DocText(d) + after);
    DocRead(d, 0, after);
    assert after + [] == after;
    SpacesRead(after, []);
    AtEnd();
  }

  lemma TextDerived(s: Bytes) returns (d: Doc)
    requires 0 !in s && Decode(s).Parsed?
    ensures IsText(s, d) && Meaning(d) == Decode(s).value
  {
    hide NextToken, GetValue, DocText, Meaning, DocOk, Nested;
    var before: Bytes;
    before, d := DocDerived(s, 0);
    var rest := GetValue(NextToken(s).0, NextToken(s).1, 0).rest;
    MemberBehind(s, 0, [0]);
    var after := EndDerived(rest);
    assert s == before + DocText(d) + after;
  }

  /** Behind the value are only spaces. */
  lemma EndDerived(s: Bytes) returns (after: Bytes)
    requires 0 !in s && NextToken(s).0 == End
    ensures Spaces(after) && s == after
  {
    hide NextToken;
    EndExactly(s);
    var n: nat :| EndsAt(s, n);
    after := s;
  }

  /** The bytes in front of the first zero byte. */
  function UpToZero(s: Bytes): (a: Bytes)
    ensures 0 !in a && a <= s && (|a| < |s| ==> s[|a|] == 0)
  {
    if s == [] || s[0] == 0 then []
    else
      var t := UpToZero(s[1..]);
      assert [s[0]] + s[1..] == s;
      [s[0]] + t
  }

  /** Every text: it is taken exactly if what is in front of its first zero byte is derived. */
  lemma Language(s: Bytes, v: Value)
    ensures Decode(s).Parsed? && Decode(s).value == v <==> exists d :: IsText(UpToZero(s), d) && Meaning(d) == v
  {
    hide Decode, Meaning, IsText;
    var a := UpToZero(s);
    TakenExactly(a, v);
    if Decode(a).Parsed? { NothingLeft(a); }
    if |a| < |s| {
      assert s[..|a|] == a;
      DecodeByPrefix(s, |a|);
    } else {
      assert a == s;
    }
  }
}
