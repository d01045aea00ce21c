/** What the reader of WebSocket frames does, told in the bytes of the stream. */
module WsBytes {
  import opened Common
  import opened WsFrames

  /** The first bytes decide: two are passed over unless the frame is the last of its message, has no reserved bit and
      is not a continuation, that is, unless the first byte is from 129 to 143; 136 closes the connection. The length is
      in the second byte, in the next two or in the next eight, the highest byte first; of the eight the first four are
      ignored and the number is taken as signed. No payload is longer than 10240 bytes. */
  lemma HeadByBytes(s: seq<Byte>)
    ensures |s| < 2 ==> ReadHead(s) == Short
    ensures |s| >= 2 && !(129 <= s[0] <= 143) ==> ReadHead(s) == Skip
    ensures |s| >= 2 && s[0] == 136 ==> ReadHead(s) == Close
    ensures |s| >= 2 && 129 <= s[0] <= 143 && s[0] != 136 ==>
      var off := (if s[1] % 128 < 126 then 2 else if s[1] % 128 == 126 then 4 else 10) + if s[1] >= 128 then 4 else 0;
      if |s| < off then ReadHead(s) == Short
      else if s[1] % 128 == 127 && s[6] >= 128 then ReadHead(s) == Wrong
      else
        var size := if s[1] % 128 < 126 then s[1] % 128
                    else if s[1] % 128 == 126 then 256 * (s[2] as int) + s[3]
                    else 0x100_0000 * (s[6] as int) + 0x1_0000 * (s[7] as int) + 256 * (s[8] as int) + s[9];
        ReadHead(s) ==
          Frame(off, if size <= 10240 then size else 10240, if s[1] >= 128 then Some(s[off - 4..off]) else None)
  {
    if |s| >= 4 { TwoBytes(s[2..4]); }
    if |s| >= 10 { EightBytes(s[2..10]); }
    hide BigEndian, ToInt;
  }

  lemma TwoBytes(s: seq<Byte>)
    requires |s| == 2
    ensures BigEndian(s) == 256 * (s[0] as int) + s[1]
  {
    assert BigEndian(s[..1]) == 256 * BigEndian(s[..1][..0]) + s[0];
  }

  lemma BigEndianSplit(s: seq<Byte>)
    requires s != []
    ensures BigEndian(s) == 256 * BigEndian(s[..|s| - 1]) + s[|s| - 1]
  {
  }

  lemma FourBytes(s: seq<Byte>)
    requires |s| >= 4
    ensures
      var n := |s| - 4;
      BigEndian(s) == 0x1_0000_0000 * BigEndian(s[..n]) +
        (0x100_0000 * (s[n] as int) + 0x1_0000 * (s[n + 1] as int) + 256 * (s[n + 2] as int) + s[n + 3])
  {
    hide BigEndian;
    var n := |s| - 4;
    BigEndianSplit(s);
    BigEndianSplit(s[..n + 3]);
    BigEndianSplit(s[..n + 2]);
    BigEndianSplit(s[..n + 1]);
    assert s[..n + 3][..n + 2] == s[..n + 2] && s[..n + 2][..n + 1] == s[..n + 1] && s[..n + 1][..n] == s[..n];
  }

  lemma EightBytes(s: seq<Byte>)
    requires |s| == 8
    ensures
      var size := 0x100_0000 * (s[4] as int) + 0x1_0000 * (s[5] as int) + 256 * (s[6] as int) + s[7];
      ToInt(BigEndian(s)) == (if s[4] < 128 then size else size - 0x1_0000_0000)
  {
    hide BigEndian;
    FourBytes(s);
    LowWord(BigEndian(s[..4]), 0x100_0000 * (s[4] as int) + 0x1_0000 * (s[5] as int) + 256 * (s[6] as int) + s[7]);
  }

  lemma LowWord(high: nat, low: nat)
    requires low < 0x1_0000_0000
    ensures (0x1_0000_0000 * high + low) % 0x1_0000_0000 == low
  {
  }

  /** What a complete frame at the beginning of a stream yields: its payload, every bit of which is that on the wire or,
      in a masked frame, the sum without carry of that and the bit of the key byte for its place. */
  lemma YieldedBits(s: seq<Byte>)
    requires ReadHead(s).Frame? && ReadHead(s).off + ReadHead(s).len <= |s|
    ensures
      var h := ReadHead(s);
      Packets(s) != [] && |Packets(s)[0]| == h.len && (h.key.Some? ==> |h.key.value| == 4) &&
      (h.key == None ==> Packets(s)[0] == s[h.off..h.off + h.len]) &&
      (h.key.Some? ==> forall i: nat, k: nat :: i < h.len && k < 8 ==>
        Packets(s)[0][i] / Pow(2, k) % 2 == (s[h.off + i] / Pow(2, k) + h.key.value[i % 4] / Pow(2, k)) % 2)
  {
    hide ReadHead, Masked, Pow;
    var h := ReadHead(s);
    OneStep(s);
    if h.key.Some? { MaskedBits(h.key.value, s[h.off..h.off + h.len], 0); } else { Unmasked(s[h.off..h.off + h.len]); }
  }

  lemma Unmasked(s: seq<Byte>)
    ensures Masked(None, s, 0) == s
  {
  }

  lemma {:induction false} XorZero(a: nat, n: nat)
    requires a < Pow(2, n)
    ensures Xor(a, 0, n) == a
  {
    if n > 0 { XorZero(a / 2, n - 1); }
  }

  /** Two numbers that have no bit in common. */
  lemma LowXor(a: nat, b: nat)
    requires a < 64 && b < 4
    ensures Xor(4 * a, b, 8) == 4 * a + b
  {
    hide Xor, Pow;
    EightBits();
    PowStep(2, 8);
    PowStep(2, 7);
    XorZero(a, 6);
    XorStep(4 * a, b, 8);
    XorStep(2 * a, b / 2, 7);
    assert 4 * a / 2 == 2 * a && 2 * a / 2 == a && b / 2 / 2 == 0;
  }

  lemma Ended()
    ensures Packets([]) == []
  {
  }

  lemma MaskedThree(s: seq<Byte>)
    requires s == [0x60, 0x60, 0x60] && Xor(0x60, 1, 8) == 0x61 && Xor(0x60, 2, 8) == 0x62 && Xor(0x60, 3, 8) == 0x63
    ensures Masked(Some([1, 2, 3, 4]), s, 0) == [0x61, 0x62, 0x63]
  {
    hide Xor;
    MaskedByte([1, 2, 3, 4], s, 0, 0);
    MaskedByte([1, 2, 3, 4], s, 0, 1);
    MaskedByte([1, 2, 3, 4], s, 0, 2);
  }

  lemma SmallFrame(s: seq<Byte>, key: seq<Byte>, text: seq<Byte>)
    requires |key| == 4 && |text| < 126 && s == [0x82, 128 + |text|] + key + text
    ensures Packets(s) == [Masked(Some(key), text, 0)]
  {
    hide ReadHead, Masked, Packets;
    HeadByBytes(s);
    assert s[2..6] == key && s[6..] == text && s[6 + |text|..] == [];
    assert s[6..6 + |text|] == text;
    OneStep(s);
    Ended();
  }

  /** The text "abc" under the key 1 2 3 4. */
  lemma MaskedText()
    ensures Packets([0x82, 0x83, 1, 2, 3, 4, 0x60, 0x60, 0x60]) == [[0x61, 0x62, 0x63]]
  {
    hide ReadHead, Packets, Masked, Xor;
    var s: seq<Byte> := [0x82, 0x83, 1, 2, 3, 4, 0x60, 0x60, 0x60];
    SmallFrame(s, [1, 2, 3, 4], [0x60, 0x60, 0x60]);
    LowXor(24, 1);
    LowXor(24, 2);
    LowXor(24, 3);
    MaskedThree([0x60, 0x60, 0x60]);
  }
}
