/** What lua_cjson.c writes is a text of the grammar of RFC 8259, without any space. */
module JsonCompact {
  import opened Common
  import opened JsonText
  import opened JsonGrammar

  /** How a byte is written in a string. */
  function CharOf(b: Byte): Char {
    if b == 8 then Letter(98)
    else if b == 9 then Letter(116)
    else if b == 10 then Letter(110)
    else if b == 12 then Letter(102)
    else if b == 13 then Letter(114)
    else if b == 34 || b == 47 || b == 92 then Letter(b)
    else if b < 32 || b == 127 then Unit([48, 48, HexChar(b / 16), HexChar(b % 16)])
    else Plain(b)
  }

  function CharsOf(s: Bytes): (cs: seq<Char>)
    ensures |cs| == |s| && forall k :: 0 <= k < |s| ==> cs[k] == CharOf(s[k])
  {
    seq(|s|, k requires 0 <= k < |s| => CharOf(s[k]))
  }

  /** The derivation of what is written: no spaces, holes as null. */
  function DocOf(v: Value): Doc {
    match v
    case Nil => NullDoc
    case Null => NullDoc
    case Bool(b) => BoolDoc(b)
    case Str(s) => StringDoc(CharsOf(s))
    case Arr(items) => ArrayDoc([], ItemsOf(items))
    case Obj(fields) => ObjectDoc([], MembersOf(fields))
  }

  function ItemsOf(l: List): Items {
    if l.Empty? then NoItem else OneItem([], DocOf(l.head), [], ItemsOf(l.tail))
  }

  function MembersOf(f: Fields): Members {
    if f.Done? then NoMember else OneMember([], CharsOf(f.key), [], [], DocOf(f.v), [], MembersOf(f.rest))
  }

  lemma HexOfByte(b: Byte)
    requires b < 128
    ensures var h := [48, 48, HexChar(b / 16), HexChar(b % 16)]; FourHex(h) && CodeUnit(h) == b
  {
  }

  lemma CharWritten(b: Byte)
    ensures CharOk(CharOf(b)) && CharText(CharOf(b)) == EscapeOne(b) && CharMeaning(CharOf(b)) == [b]
  {
    if b < 128 { HexOfByte(b); }
    hide CodeUnit, FourHex;
  }

  lemma {:induction false} CharsWritten(s: Bytes)
    ensures CharsOk(CharsOf(s)) && CharsText(CharsOf(s)) == EscapeAll(s) && CharsMeaning(CharsOf(s)) == s
  {
    hide CharOf, CharOk, CharText, CharMeaning, EscapeOne;
    forall k | 0 <= k < |s| ensures CharOk(CharsOf(s)[k]) { CharWritten(s[k]); }
    if s != [] {
      CharWritten(s[0]);
      CharsWritten(s[1..]);
      assert CharsOf(s)[1..] == CharsOf(s[1..]);
      assert [s[0]] + s[1..] == s;
    }
  }

  lemma StringWritten(s: Bytes)
    ensures CharsOk(CharsOf(s)) && Quote(CharsOf(s)) == Quoted(s)
  {
    CharsWritten(s);
  }

  lemma ArrayIs(items: Items)
    requires ItemsOk(items)
    ensures
      var d := ArrayDoc([], items);
      DocText(d) == [91] + ItemsDoc(items) + [93] && DocOk(d) && Meaning(d) == Arr(ItemsMeaning(items))
  {
  }

  lemma ObjectIs(members: Members)
    requires MembersOk(members)
    ensures
      var d := ObjectDoc([], members);
      DocText(d) == [123] + MembersDoc(members) + [125] && DocOk(d) && Meaning(d) == Obj(MembersMeaning(members))
  {
  }

  /** What is written for a value is derived from the grammar without a space, and means the value. */
  lemma {:induction false} Written(v: Value, depth: nat)
    requires Text(v, depth).Some?
    ensures DocOk(DocOf(v)) && DocText(DocOf(v)) == Text(v, depth).value && Meaning(DocOf(v)) == Back(v)
    decreases v
  {
    match v
    case Str(s) =>
      hide CharsOf, CharsText, EscapeAll;
      CharsWritten(s);
    case Arr(items) =>
      TableText(v, depth);
      ItemsWritten(items, depth + 1);
      ArrayIs(ItemsOf(items));
      hide ItemsText, Text, ItemsDoc, DocText, DocOk, Meaning, ItemsOf, ItemsOk, ItemsMeaning;
    case Obj(fields) =>
      TableText(v, depth);
      MembersWritten(fields, depth + 1);
      ObjectIs(MembersOf(fields));
      hide FieldsText, Text, MembersDoc, DocText, DocOk, Meaning, MembersOf, MembersOk, MembersMeaning;
    case _ =>
  }

  lemma {:induction false} ItemsWritten(l: List, depth: nat)
    requires ItemsText(l, depth).Some?
    ensures ItemsOk(ItemsOf(l)) && ItemsDoc(ItemsOf(l)) == ItemsText(l, depth).value
    ensures ItemsMeaning(ItemsOf(l)) == BackItems(l)
    decreases l
  {
    ItemsTextIs(l, depth);
    if l.Item? {
      Written(l.head, depth);
      ItemsWritten(l.tail, depth);
      hide Text, ItemsText, DocText, DocOf, Meaning, DocOk, Back;
      var d, a := ItemsOf(l), DocText(DocOf(l.head));
      assert d.before + a + d.after == a;
    }
  }

  lemma OneWritten(key: seq<Char>, d: Doc, more: Members)
    ensures MembersDoc(OneMember([], key, [], [], d, [], more)) ==
      Quote(key) + [58] + DocText(d) + if more.NoMember? then [] else [44] + MembersDoc(more)
  {
    hide DocText, Quote;
    NoSpaces(Quote(key), DocText(d));
  }

  lemma NoSpaces(key: Bytes, d: Bytes)
    ensures [] + key + [] + [58] + [] + d + [] == key + [58] + d
  {
  }

  lemma OneMeant(key: seq<Char>, d: Doc, more: Members)
    requires CharsOk(key) && DocOk(d) && MembersOk(more)
    ensures
      var m := OneMember([], key, [], [], d, [], more);
      MembersOk(m) && MembersMeaning(m) == Field(CharsMeaning(key), Meaning(d), MembersMeaning(more))
  {
    hide DocOk, Meaning, CharsOk, CharsMeaning;
  }

  lemma {:induction false} MembersWritten(f: Fields, depth: nat)
    requires FieldsText(f, depth).Some?
    ensures MembersOk(MembersOf(f)) && MembersDoc(MembersOf(f)) == FieldsText(f, depth).value
    ensures MembersMeaning(MembersOf(f)) == BackFields(f)
    decreases f
  {
    FieldsTextIs(f, depth);
    if f.Field? {
      Written(f.v, depth);
      MembersWritten(f.rest, depth);
      CharsWritten(f.key);
      StringWritten(f.key);
      hide Text, FieldsText, DocText, DocOf, Meaning, DocOk, Back, Quote, Quoted, CharsOf, CharsOk, CharsMeaning,
        MembersDoc, MembersMeaning, MembersOk;
      OneWritten(CharsOf(f.key), DocOf(f.v), MembersOf(f.rest));
      OneMeant(CharsOf(f.key), DocOf(f.v), MembersOf(f.rest));
    }
  }

  /** Every text that is written is a text of the grammar and means the value that was written. */
  lemma WrittenIsText(v: Value)
    requires Text(v, 0).Some?
    ensures IsText(Text(v, 0).value, DocOf(v)) && Meaning(DocOf(v)) == Back(v)
  {
    Written(v, 0);
    Writable(v, 0);
    NestedIs(v);
    hide DocText, Text, DocOk, Meaning, Nested, Depth;
    var t := Text(v, 0).value;
    assert t == [] + DocText(DocOf(v)) + [];
    assert Spaces([]);
  }

  lemma {:induction false} NestedIs(v: Value)
    ensures Nested(DocOf(v)) == Depth(v)
    decreases v
  {
    match v
    case Arr(items) => NestedItemsIs(items);
    case Obj(fields) => NestedMembersIs(fields);
    case _ =>
  }

  lemma {:induction false} NestedItemsIs(l: List)
    ensures NestedItems(ItemsOf(l)) == DepthItems(l)
    decreases l
  {
    if l.Item? {
      NestedIs(l.head);
      NestedItemsIs(l.tail);
    }
  }

  lemma {:induction false} NestedMembersIs(f: Fields)
    ensures NestedMembers(MembersOf(f)) == DepthFields(f)
    decreases f
  {
    if f.Field? {
      NestedIs(f.v);
      NestedMembersIs(f.rest);
    }
  }
}
