/** The format of the value serializer of lua-seri.c, told in bytes. */
module SeriBytes {
  import opened Common
  import opened Seri

  lemma {:induction false} ByteAt(x: nat, n: nat, k: nat)
    requires k < n
    ensures ToBytes(x, n)[k] == x / Pow(256, k) % 256
  {
    PowStep(256, k);
    if k > 0 {
      ByteAt(x / 256, n - 1, k - 1);
      DivTwice(x, 256, Pow(256, k - 1));
    }
  }

  /** The bytes of a number, the lowest first. */
  lemma Word(x: nat)
    ensures ToBytes(x, 1) == [x % 256] && ToBytes(x, 2) == [x % 256, x / 256 % 256]
    ensures ToBytes(x, 4) == [x % 256, x / 256 % 256, x / 0x1_0000 % 256, x / 0x100_0000 % 256]
  {
    assert x / 256 / 256 == x / 0x1_0000 && x / 0x1_0000 / 256 == x / 0x100_0000;
    assert ToBytes(x / 256 / 256 / 256, 1) == [x / 256 / 256 / 256 % 256];
    assert ToBytes(x / 256 / 256, 2) == [x / 256 / 256 % 256] + ToBytes(x / 256 / 256 / 256, 1);
    assert ToBytes(x / 256, 3) == [x / 256 % 256] + ToBytes(x / 256 / 256, 2);
  }

  /** An integer is written in one byte if it is zero, else behind a byte that tells its width: one or two bytes if
      it is below 256 or 65536, four if it fits 32 bits; the lowest byte first, negative ones in two's complement. */
  lemma IntBytes(i: int)
    requires -0x8000_0000 <= i < 0x8000_0000
    ensures i == 0 ==> Encode(Int(i)) == [2]
    ensures 0 < i < 256 ==> Encode(Int(i)) == [10, i]
    ensures 256 <= i < 0x1_0000 ==> Encode(Int(i)) == [18, i % 256, i / 256]
    ensures 0x1_0000 <= i ==>
      Encode(Int(i)) == [34, i % 256, i / 256 % 256, i / 0x1_0000 % 256, i / 0x100_0000]
    ensures i < 0 ==>
      var u := i + 0x1_0000_0000;
      Encode(Int(i)) == [34, u % 256, u / 256 % 256, u / 0x1_0000 % 256, u / 0x100_0000]
  {
    hide ToBytes;
    Word(if i < 0 then i + 0x1_0000_0000 else i);
  }

  /** Other integers take eight bytes. */
  lemma LongBytes(i: int)
    requires -0x8000_0000_0000_0000 <= i < 0x8000_0000_0000_0000 && !(-0x8000_0000 <= i < 0x8000_0000)
    ensures
      var u := if i < 0 then i + 0x1_0000_0000_0000_0000 else i;
      |Encode(Int(i))| == 9 && Encode(Int(i))[0] == 50 &&
      forall k: nat :: k < 8 ==> Encode(Int(i))[1 + k] == u / Pow(256, k) % 256
  {
    hide ToBytes, Pow;
    var u, e := if i < 0 then i + 0x1_0000_0000_0000_0000 else i, Encode(Int(i));
    assert e == [50] + ToBytes(u, 8);
    forall k: nat | k < 8 ensures e[1 + k] == u / Pow(256, k) % 256 { ByteAt(u, 8, k); }
  }

  /** A string of up to 31 bytes has its length in the first byte, a longer one in two or four bytes behind it. */
  lemma StrBytes(s: seq<Byte>)
    requires |s| < 0x8000_0000
    ensures |s| < 32 ==> Encode(Str(s)) == [4 + 8 * |s|] + s
    ensures 32 <= |s| < 0x1_0000 ==> Encode(Str(s)) == [21, |s| % 256, |s| / 256] + s
    ensures |s| >= 0x1_0000 ==>
      Encode(Str(s)) == [37, |s| % 256, |s| / 256 % 256, |s| / 0x1_0000 % 256, |s| / 0x100_0000] + s
  {
    hide ToBytes;
    Word(|s|);
  }

  lemma SimpleBytes(b: bool, bits: seq<Byte>)
    ensures Encode(Nil) == [0] && Encode(Bool(b)) == [if b then 9 else 1]
    ensures Encode(Real(bits)) == [66] + bits && Encode(Ptr(bits)) == [3] + bits
  {
    hide EncodeInt, EncodeList, EncodePairs;
  }

  /** A table is its array part, in the order of the array, with the number of elements in the first byte up to 30, then
      the pairs, key before value, and a nil. */
  lemma TableBytes(arr: List, hash: Pairs)
    ensures Length(arr) < 31 ==> Encode(Table(arr, hash)) == [6 + 8 * Length(arr)] + EncodeList(arr) + EncodePairs(hash)
    ensures Length(arr) >= 31 ==>
      Encode(Table(arr, hash)) == [254] + Encode(Int(Length(arr))) + EncodeList(arr) + EncodePairs(hash)
  {
    hide EncodeInt, EncodeList, EncodePairs;
  }

  /** Element after element, and pair after pair. */
  lemma PartBytes(arr: List, hash: Pairs)
    ensures EncodeList(arr) == if arr.Empty? then [] else Encode(arr.head) + EncodeList(arr.tail)
    ensures EncodePairs(hash) == if hash.Done? then [0] else Encode(hash.k) + Encode(hash.v) + EncodePairs(hash.rest)
  {
    hide Encode;
  }

  /** The values at which the form changes. */
  lemma Boundaries()
    ensures Encode(Int(0)) == [2] && Encode(Int(255)) == [10, 255] && Encode(Int(256)) == [18, 0, 1]
    ensures Encode(Int(65535)) == [18, 255, 255] && Encode(Int(65536)) == [34, 0, 0, 1, 0]
    ensures Encode(Int(0x7fff_ffff)) == [34, 255, 255, 255, 127] && Encode(Int(-1)) == [34, 255, 255, 255, 255]
    ensures Encode(Int(-0x8000_0000)) == [34, 0, 0, 0, 128]
    ensures Encode(Table(Item(Nil, Empty), Pair(Bool(true), Int(1), Done))) == [14, 0, 9, 10, 1, 0]
  {
    var hash := Pair(Bool(true), Int(1), Done);
    TableBytes(Item(Nil, Empty), hash);
    PartBytes(Item(Nil, Empty), hash);
    PartBytes(Empty, Done);
    SimpleBytes(true, []);
    hide Encode, EncodeList, EncodePairs;
    IntBytes(0);
    IntBytes(1);
    IntBytes(255);
    IntBytes(256);
    IntBytes(65535);
    IntBytes(65536);
    IntBytes(0x7fff_ffff);
    IntBytes(-1);
    IntBytes(-0x8000_0000);
  }
}
