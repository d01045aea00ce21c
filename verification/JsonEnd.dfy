/** Where a JSON text ends for the decoder of lua_cjson.c: at its end, or at its first zero byte. */
module JsonEnd {
  import opened Common
  import opened JsonText

  // ----- a zero byte is the end -----

  /** A text that goes on with a zero byte. */
  predicate Zero(z: seq<Byte>) { z != [] && z[0] == 0 }

  function Behind<T>(r: Read<T>, z: seq<Byte>): Read<T> {
    match r
    case Bad => Bad
    case Got(v, rest) => Got(v, rest + z)
  }

  lemma HexBehind(a: seq<Byte>, z: seq<Byte>, k: nat)
    requires 0 !in a && Zero(z) && k <= |a|
    ensures Hex4(a + z, k) == Hex4(a, k)
  {
    assert forall j: nat :: j <= |a| ==> At(a + z, j) == At(a, j);
    if k + 4 > |a| { assert At(a, |a|) == 0 && |a| in [k, k + 1, k + 2, k + 3]; }
  }

  lemma UnicodeBehind(a: seq<Byte>, z: seq<Byte>)
    requires 0 !in a && Zero(z) && |a| >= 2
    ensures GetUnicode(a + z) == Behind(GetUnicode(a), z)
    ensures GetUnicode(a).Got? ==> 0 !in GetUnicode(a).rest
  {
    hide Hex4, Utf8;
    HexBehind(a, z, 2);
    if |a| >= 6 { assert (a + z)[6..] == a[6..] + z; }
    if |a| >= 8 { HexBehind(a, z, 8); }
    if |a| >= 12 { assert (a + z)[12..] == a[12..] + z; }
  }

  lemma BeforeBehind(b: seq<Byte>, r: Read<seq<Byte>>, z: seq<Byte>)
    ensures Behind(Before(b, r), z) == Before(b, Behind(r, z))
  {
  }

  lemma {:induction false} CharsBehind(a: seq<Byte>, z: seq<Byte>)
    requires 0 !in a && Zero(z)
    ensures GetChars(a + z) == Behind(GetChars(a), z)
    ensures GetChars(a).Got? ==> 0 !in GetChars(a).rest
    decreases |a|
  {
    hide GetChars, GetUnicode, Before, Unescape;
    OneChar(a);
    OneChar(a + z);
    var s, c := a + z, At(a, 0);
    assert At(s, 0) == c && (a != [] ==> At(s, 1) == At(a, 1) && s[1..] == a[1..] + z);
    if c == QUOTE || c == 0 {
    } else if c != BACKSLASH {
      CharsBehind(a[1..], z);
      BeforeBehind([c], GetChars(a[1..]), z);
      BeforeGot([c], GetChars(a[1..]));
    } else {
      EscapeBehind(a, z);
    }
  }

  lemma BeforeGot(b: seq<Byte>, r: Read<seq<Byte>>)
    ensures Before(b, r).Got? <==> r.Got?
    ensures r.Got? ==> Before(b, r).rest == r.rest
  {
  }

  lemma {:induction false} EscapeBehind(a: seq<Byte>, z: seq<Byte>)
    requires 0 !in a && Zero(z) && At(a, 0) == BACKSLASH
    ensures GetChars(a + z) == Behind(GetChars(a), z)
    ensures GetChars(a).Got? ==> 0 !in GetChars(a).rest
    decreases |a|, 0
  {
    hide GetChars, GetUnicode, Before;
    OneChar(a);
    OneChar(a + z);
    var s, e := a + z, Unescape(At(a, 1));
    assert At(s, 0) == BACKSLASH && At(s, 1) == At(a, 1);
    if e == 117 {
      UnicodeBehind(a, z);
      var u := GetUnicode(a);
      if u.Got? {
        CharsBehind(u.rest, z);
        BeforeBehind(u.value, GetChars(u.rest), z);
        BeforeGot(u.value, GetChars(u.rest));
      }
    } else if e != 0 {
      assert s[2..] == a[2..] + z;
      CharsBehind(a[2..], z);
      BeforeBehind([e], GetChars(a[2..]), z);
      BeforeGot([e], GetChars(a[2..]));
    }
  }

  lemma WordBehind(a: seq<Byte>, z: seq<Byte>, word: seq<Byte>)
    requires 0 !in a && Zero(z) && 0 !in word
    ensures word <= a + z <==> word <= a
    ensures word <= a ==> (a + z)[|word|..] == a[|word|..] + z
  {
    if |word| > |a| { assert (a + z)[|a|] == 0 && word[|a|] in word; }
  }

  lemma {:induction false} TokenBehind(a: seq<Byte>, z: seq<Byte>)
    requires 0 !in a && Zero(z)
    ensures NextToken(a + z).0 == NextToken(a).0
    ensures NextToken(a).0 != Wrong ==> NextToken(a + z).1 == NextToken(a).1 + z && 0 !in NextToken(a).1
    decreases |a|
  {
    hide NextToken, GetChars;
    OneToken(a);
    OneToken(a + z);
    if a != [] {
      assert (a + z)[1..] == a[1..] + z;
      if IsSpace(a[0]) { TokenBehind(a[1..], z); } else if a[0] == QUOTE { CharsBehind(a[1..], z); }
      WordBehind(a, z, TRUE);
      WordBehind(a, z, FALSE);
      WordBehind(a, z, NULL);
    }
  }

  function ParsedBehind<T>(p: Parse<T>, z: seq<Byte>): Parse<T> {
    match p
    case Fail => Fail
    case Number => Number
    case Parsed(v, rest) => Parsed(v, rest + z)
  }

  predicate NoZero<T>(p: Parse<T>) { p.Parsed? ==> 0 !in p.rest }

  lemma {:induction false} ValueBehind(t: Token, a: seq<Byte>, depth: nat, z: seq<Byte>)
    requires 0 !in a && Zero(z)
    ensures GetValue(t, a + z, depth) == ParsedBehind(GetValue(t, a, depth), z) && NoZero(GetValue(t, a, depth))
    decreases |a|, if t.ArrBegin? || t.ObjBegin? then 3 else 0
  {
    hide NextToken, GetItems, GetFields;
    if (t == ArrBegin || t == ObjBegin) && depth < MAX_DEPTH {
      GetArr(a, depth);
      GetArr(a + z, depth);
      GetObj(a, depth);
      GetObj(a + z, depth);
      TokenBehind(a, z);
      var r := NextToken(a);
      if t == ArrBegin { ItemsBehind(a, depth + 1, z); } else { FieldsBehind(a, depth + 1, z); }
    }
  }

  /** From the token on that comes next. */
  lemma {:induction false} ItemsBehind(a: seq<Byte>, depth: nat, z: seq<Byte>)
    requires 0 !in a && Zero(z)
    ensures
      var r, q := NextToken(a), NextToken(a + z);
      var p := GetItems(r.0, r.1, depth);
      GetItems(q.0, q.1, depth) == ParsedBehind(p, z) && NoZero(p)
    decreases |a|, 2
  {
    hide NextToken, GetValue, GetItems, GetFields;
    TokenBehind(a, z);
    var r, q := NextToken(a), NextToken(a + z);
    OneItem(r.0, r.1, depth);
    OneItem(q.0, q.1, depth);
    if r.0 == Wrong {
      NoValue(r.1, depth);
      NoValue(q.1, depth);
      return;
    }
    ValueBehind(r.0, r.1, depth, z);
    var x := GetValue(r.0, r.1, depth);
    if x.Parsed? {
      TokenBehind(x.rest, z);
      var u := NextToken(x.rest);
      if u.0 == Comma { ItemsBehind(u.1, depth, z); }
    }
  }

  lemma NoValue(s: seq<Byte>, depth: nat)
    ensures GetValue(Wrong, s, depth) == Fail
  {
  }

  lemma {:induction false} FieldsBehind(a: seq<Byte>, depth: nat, z: seq<Byte>)
    requires 0 !in a && Zero(z)
    ensures
      var r, q := NextToken(a), NextToken(a + z);
      var p := GetFields(r.0, r.1, depth);
      GetFields(q.0, q.1, depth) == ParsedBehind(p, z) && NoZero(p)
    decreases |a|, 2
  {
    hide NextToken, GetValue, GetItems, GetFields;
    TokenBehind(a, z);
    var r, q := NextToken(a), NextToken(a + z);
    OneField(r.0, r.1, depth);
    OneField(q.0, q.1, depth);
    if r.0.String? {
      TokenBehind(r.1, z);
      var k := NextToken(r.1);
      if k.0 == Colon {
        MemberBehind(k.1, depth, z);
        var x := GetValue(NextToken(k.1).0, NextToken(k.1).1, depth);
        if x.Parsed? {
          TokenBehind(x.rest, z);
          var u := NextToken(x.rest);
          if u.0 == Comma { FieldsBehind(u.1, depth, z); }
        }
      }
    }
  }

  /** The value behind a colon. */
  lemma {:induction false} MemberBehind(a: seq<Byte>, depth: nat, z: seq<Byte>)
    requires 0 !in a && Zero(z)
    ensures
      var r, q := NextToken(a), NextToken(a + z);
      var p := GetValue(r.0, r.1, depth);
      GetValue(q.0, q.1, depth) == ParsedBehind(p, z) && NoZero(p)
    decreases |a|, 4
  {
    hide NextToken, GetValue, GetItems, GetFields;
    TokenBehind(a, z);
    var r, q := NextToken(a), NextToken(a + z);
    NoValue(r.1, depth);
    NoValue(q.1, depth);
    if r.0 != Wrong { ValueBehind(r.0, r.1, depth, z); }
  }

  // ----- the decoder -----

  /** A zero byte in a text, with anything behind it, is not noticed, once the first two bytes are not zero. */
  lemma CutAtZero(a: seq<Byte>, junk: seq<Byte>)
    requires 0 !in a
    ensures |a| >= 2 ==> Decode(a + [0] + junk) == ParsedBehind(Decode(a), [0] + junk)
    ensures |a| < 2 ==> !Decode(a + [0] + junk).Parsed? && !Decode(a).Parsed?
    ensures NoZero(Decode(a))
  {
    hide NextToken, GetValue;
    var z := [0] + junk;
    assert a + [0] + junk == a + z;
    MemberBehind(a, 0, z);
    var p := GetValue(NextToken(a).0, NextToken(a).1, 0);
    if p.Parsed? { TokenBehind(p.rest, z); }
    if |a| < 2 { TooShort(a, z); }
  }

  lemma TooShort(a: seq<Byte>, z: seq<Byte>)
    requires |a| < 2 && Zero(z)
    ensures !Decode(a).Parsed? && !Decode(a + z).Parsed?
  {
    var r := NextToken(a);
    if a != [] && IsSpace(a[0]) { assert NextToken([]) == (End, []); }
    if r.0 == ArrBegin || r.0 == ObjBegin { assert r.1 == [] && NextToken([]) == (End, []); }
    if a == [] && |z| == 1 { assert a + z == [0]; }
  }

  lemma {:induction false} FirstZero(s: seq<Byte>) returns (n: nat)
    requires 0 in s
    ensures n < |s| && s[n] == 0 && 0 !in s[..n]
  {
    if s[0] == 0 {
      n := 0;
    } else {
      n := FirstZero(s[1..]);
      assert s[..n + 1] == [s[0]] + s[1..][..n];
      n := n + 1;
    }
  }

  /** Where no zero byte is, the end of the text is the end. */
  lemma {:induction false} EndIsEnd(a: seq<Byte>)
    requires 0 !in a
    ensures NextToken(a).0 == End ==> NextToken(a).1 == []
    decreases |a|
  {
    hide NextToken, GetChars;
    OneToken(a);
    if a != [] && IsSpace(a[0]) { EndIsEnd(a[1..]); }
  }

  lemma NothingLeft(a: seq<Byte>)
    requires 0 !in a && Decode(a).Parsed?
    ensures Decode(a).rest == []
  {
    hide NextToken, GetValue;
    MemberBehind(a, 0, [0]);
    EndIsEnd(GetValue(NextToken(a).0, NextToken(a).1, 0).rest);
  }

  /** Whether the decoder takes a text, and as what, is decided by the bytes in front of its first zero byte; all that
      follows is ignored. */
  lemma DecodeByPrefix(s: seq<Byte>, n: nat)
    requires n < |s| && s[n] == 0 && 0 !in s[..n]
    ensures Decode(s).Parsed? <==> Decode(s[..n]).Parsed?
    ensures Decode(s).Parsed? ==> Decode(s[..n]) == Parsed(Decode(s).value, []) && Decode(s).rest == s[n..]
  {
    hide Decode;
    var a, junk := s[..n], s[n + 1..];
    assert s == a + [0] + junk && s[n..] == [0] + junk;
    CutAtZero(a, junk);
    if Decode(a).Parsed? { NothingLeft(a); }
  }

  /** A text that is taken is read to its end if and only if it has no zero byte. */
  lemma IgnoredExactly(s: seq<Byte>)
    requires Decode(s).Parsed?
    ensures Decode(s).rest == [] <==> 0 !in s
  {
    hide Decode;
    if 0 in s {
      var n := FirstZero(s);
      DecodeByPrefix(s, n);
    } else {
      NothingLeft(s);
    }
  }

  // ----- behind the text of a value -----

  /** Only spaces up to place `n`, and there the end or a zero byte. */
  predicate EndsAt(s: seq<Byte>, n: nat) {
    n <= |s| && (forall k :: 0 <= k < n ==> IsSpace(s[k])) && (n == |s| || s[n] == 0)
  }

  lemma {:induction false} EndExactly(s: seq<Byte>)
    ensures NextToken(s).0 == End <==> exists n: nat :: EndsAt(s, n)
    decreases |s|
  {
    if s == [] || s[0] == 0 {
      assert EndsAt(s, 0);
    } else if IsSpace(s[0]) {
      EndExactly(s[1..]);
      if n: nat :| EndsAt(s[1..], n) {
        assert forall k :: 0 < k < n + 1 ==> s[k] == s[1..][k - 1];
        assert EndsAt(s, n + 1);
      }
      if n: nat :| EndsAt(s, n) { assert EndsAt(s[1..], n - 1); }
    }
  }

  /** What may stand behind the text of a value: spaces, or spaces and then a zero byte with anything behind it. */
  lemma TakenBehind(v: Value, x: seq<Byte>)
    requires Text(v, 0).Some?
    ensures
      var p := Decode(Text(v, 0).value + x);
      (p.Parsed? <==> exists n: nat :: EndsAt(x, n)) && (p.Parsed? ==> p.value == Back(v))
  {
    hide Text, Back, NextToken, GetValue, EndsAt;
    TextPlain(v, 0);
    ValueBack(v, 0, x);
    EndExactly(x);
  }

  /** So anything behind a zero byte is ignored. */
  lemma HiddenRest(v: Value, junk: seq<Byte>)
    requires Text(v, 0).Some?
    ensures Decode(Text(v, 0).value + [0] + junk) == Parsed(Back(v), [0] + junk)
  {
    hide Text, Back, Decode;
    var t := Text(v, 0).value;
    TextPlain(v, 0);
    RoundTrip(v);
    CutAtZero(t, junk);
  }
}
