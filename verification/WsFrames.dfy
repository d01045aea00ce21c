/** The frames of a WebSocket stream as lua-websocketnetpack.c reads them: what a stream holds, that it does not matter
    where the stream is cut, and that frames written as in section 5.2 of RFC 6455 are read back. */
module WsFrames {
  import opened Common

  const WEBSOCKET_HEADER_LEN := 2
  const WEBSOCKET_MASK_LEN := 4
  const MAX_PACKSIZE := 10 * 1024
  const W16 := 0x1_0000
  const W32 := 0x1_0000_0000

  // ----- masking -----

  /** The exclusive or of the lowest `n` bits. */
  function Xor(a: nat, b: nat, n: nat): (r: nat)
    ensures r < Pow(2, n)
  {
    if n == 0 then 0 else (a + b) % 2 + 2 * Xor(a / 2, b / 2, n - 1)
  }

  lemma {:induction false} XorTwice(a: nat, b: nat, n: nat)
    requires a < Pow(2, n)
    ensures Xor(Xor(a, b, n), b, n) == a
  {
    if n > 0 {
      XorTwice(a / 2, b / 2, n - 1);
      LowBit((a + b) % 2, Xor(a / 2, b / 2, n - 1));
      Parity(a, b, Xor(a / 2, b / 2, n - 1));
    }
  }

  lemma XorStep(a: nat, b: nat, n: nat)
    ensures n > 0 ==> Xor(a, b, n) == (a + b) % 2 + 2 * Xor(a / 2, b / 2, n - 1)
    ensures n == 0 ==> Xor(a, b, n) == 0
  {
  }

  /** Each bit of the result is the sum of the two bits without carry: one exactly if one of them is one. */
  lemma {:induction false} XorBit(a: nat, b: nat, n: nat, k: nat)
    requires k < n
    ensures Xor(a, b, n) / Pow(2, k) % 2 == (a / Pow(2, k) + b / Pow(2, k)) % 2
  {
    hide Xor, Pow;
    var rest := Xor(a / 2, b / 2, n - 1);
    XorStep(a, b, n);
    PowStep(2, k);
    if k == 0 {
      LowBit((a + b) % 2, rest);
    } else {
      XorBit(a / 2, b / 2, n - 1, k - 1);
      HalfBit(a, b, (a + b) % 2, rest, k);
    }
  }

  lemma HalfBit(a: nat, b: nat, bit: nat, rest: nat, k: nat)
    requires bit < 2 && k > 0
    requires rest / Pow(2, k - 1) % 2 == (a / 2 / Pow(2, k - 1) + b / 2 / Pow(2, k - 1)) % 2
    ensures (bit + 2 * rest) / Pow(2, k) % 2 == (a / Pow(2, k) + b / Pow(2, k)) % 2
  {
    PowStep(2, k);
    hide Pow;
    LowBit(bit, rest);
    DivTwice(a, 2, Pow(2, k - 1));
    DivTwice(b, 2, Pow(2, k - 1));
    DivTwice(bit + 2 * rest, 2, Pow(2, k - 1));
  }

  lemma LowBit(bit: nat, y: nat)
    requires bit < 2
    ensures (bit + 2 * y) % 2 == bit && (bit + 2 * y) / 2 == y
  {
  }

  lemma Parity(a: nat, b: nat, y: nat)
    ensures ((a + b) % 2 + 2 * y + b) % 2 == a % 2
  {
  }

  lemma EightBits()
    ensures Pow(2, 8) == 256
  {
    assert Pow(2, 4) == 2 * Pow(2, 3) == 4 * Pow(2, 2) == 8 * Pow(2, 1) == 16;
    assert Pow(2, 8) == 2 * Pow(2, 7) == 4 * Pow(2, 6) == 8 * Pow(2, 5) == 16 * Pow(2, 4);
  }

  function XorByte(a: Byte, b: Byte): (r: Byte) {
    EightBits();
    Xor(a, b, 8)
  }

  /** The bytes of a payload from its place `at` on, masked or unmasked. */
  function Masked(key: Option<seq<Byte>>, s: seq<Byte>, at: nat): (r: seq<Byte>)
    requires key.Some? ==> |key.value| == WEBSOCKET_MASK_LEN
    ensures |r| == |s|
  {
    if key == None then s
    else seq(|s|, i requires 0 <= i < |s| => XorByte(s[i], key.value[(i + at) % WEBSOCKET_MASK_LEN]))
  }

  /** `r` is `s` with the bits of the key byte for each place added without carry; the key begins again every four
      bytes. */
  predicate BitsAdded(r: seq<Byte>, s: seq<Byte>, key: seq<Byte>, at: nat)
    requires |key| == 4
  {
    |r| == |s| &&
    forall i: nat, k: nat :: i < |s| && k < 8 ==>
      r[i] / Pow(2, k) % 2 == (s[i] / Pow(2, k) + key[(i + at) % 4] / Pow(2, k)) % 2
  }

  lemma MaskedBits(key: seq<Byte>, s: seq<Byte>, at: nat)
    requires |key| == 4
    ensures BitsAdded(Masked(Some(key), s, at), s, key, at)
  {
    hide Masked, Xor, Pow;
    forall i: nat, k: nat | i < |s| && k < 8
      ensures Masked(Some(key), s, at)[i] / Pow(2, k) % 2 == (s[i] / Pow(2, k) + key[(i + at) % 4] / Pow(2, k)) % 2
    {
      MaskedByte(key, s, at, i);
      XorBit(s[i], key[(i + at) % 4], 8, k);
    }
  }

  lemma MaskedByte(key: seq<Byte>, s: seq<Byte>, at: nat, i: nat)
    requires |key| == 4 && i < |s|
    ensures Masked(Some(key), s, at)[i] == Xor(s[i], key[(i + at) % 4], 8)
  {
  }

  lemma MaskTwice(key: Option<seq<Byte>>, s: seq<Byte>, at: nat)
    requires key.Some? ==> |key.value| == WEBSOCKET_MASK_LEN
    ensures Masked(key, Masked(key, s, at), at) == s
  {
    if key.Some? {
      forall i | 0 <= i < |s| ensures Masked(key, Masked(key, s, at), at)[i] == s[i] {
        EightBits();
        XorTwice(s[i], key.value[(i + at) % WEBSOCKET_MASK_LEN], 8);
      }
    }
  }

  lemma MaskSplit(key: Option<seq<Byte>>, s: seq<Byte>, t: seq<Byte>, at: nat)
    requires key.Some? ==> |key.value| == WEBSOCKET_MASK_LEN
    ensures Masked(key, s + t, at) == Masked(key, s, at) + Masked(key, t, at + |s|)
  {
    if key.Some? {
      forall i | 0 <= i < |s + t|
        ensures Masked(key, s + t, at)[i] == (Masked(key, s, at) + Masked(key, t, at + |s|))[i]
      {
        if i >= |s| { assert (s + t)[i] == t[i - |s|] && i + at == (i - |s|) + (at + |s|); }
      }
    }
  }

  // ----- reading a stream -----

  /** What `read_size` says about the beginning of a stream: too short (-1), two bytes to throw away (-2), a close
      frame (-3), or a payload of `len` bytes from `off` on. In the case `Wrong` the length, truncated to an `int`, is
      negative. */
  datatype Head =
    | Short
    | Skip
    | Close
    | Wrong
    | Frame(off: nat, len: nat, key: Option<seq<Byte>>)

  function BigEndian(s: seq<Byte>): nat {
    if s == [] then 0 else 256 * BigEndian(s[..|s| - 1]) + s[|s| - 1]
  }

  /** An unsigned number assigned to an `int`. */
  function ToInt(x: nat): int { if x % W32 < W32 / 2 then x % W32 else x % W32 - W32 }

  /** `read_size`, and the limit that its callers put on the result. */
  function ReadHead(s: seq<Byte>): (h: Head)
    ensures h.Frame? ==> WEBSOCKET_HEADER_LEN <= h.off <= |s| && (h.key.Some? ==> |h.key.value| == WEBSOCKET_MASK_LEN)
    ensures h.Skip? ==> WEBSOCKET_HEADER_LEN <= |s|
  {
    if |s| < WEBSOCKET_HEADER_LEN then Short
    else
      var fin, rsv, opcode := s[0] / 128, s[0] / 16 % 8, s[0] % 16;
      var length := s[1] % 128;
      if rsv != 0 || fin == 0 || opcode == 0 then Skip
      else if opcode == 8 then Close
      else if length < 126 then ReadMask(s, 2, length)
      else if length == 126 then
        if |s| < 4 then Short else ReadMask(s, 4, BigEndian(s[2..4]))
      else
        if |s| < 10 then Short else ReadMask(s, 10, ToInt(BigEndian(s[2..10])))
  }

  function ReadMask(s: seq<Byte>, off: nat, size: int): (h: Head)
    requires WEBSOCKET_HEADER_LEN <= off <= |s|
    ensures h.Frame? ==> off <= h.off <= |s| && (h.key.Some? ==> |h.key.value| == WEBSOCKET_MASK_LEN)
    ensures !h.Skip?
  {
    if s[1] / 128 == 1 && off + WEBSOCKET_MASK_LEN > |s| then Short
    else if size < 0 then Wrong
    else if s[1] / 128 == 1 then
      Frame(off + WEBSOCKET_MASK_LEN, Min(size, MAX_PACKSIZE), Some(s[off..off + WEBSOCKET_MASK_LEN]))
    else Frame(off, Min(size, MAX_PACKSIZE), None)
  }

  /** The payloads of the frames that are complete. */
  function Packets(s: seq<Byte>): seq<seq<Byte>>
    decreases |s|
  {
    match ReadHead(s)
    case Skip => Packets(s[WEBSOCKET_HEADER_LEN..])
    case Frame(off, len, key) =>
      if |s| < off + len then [] else [Masked(key, s[off..off + len], 0)] + Packets(s[off + len..])
    case _ => []
  }

  /** What is left behind them. */
  function Rest(s: seq<Byte>): seq<Byte>
    decreases |s|
  {
    match ReadHead(s)
    case Skip => Rest(s[WEBSOCKET_HEADER_LEN..])
    case Frame(off, len, key) => if |s| < off + len then s else Rest(s[off + len..])
    case _ => s
  }

  /** No frame of the stream is a close frame, and no length is negative when truncated to an `int`. */
  predicate Fine(s: seq<Byte>)
    decreases |s|
  {
    match ReadHead(s)
    case Short => true
    case Skip => Fine(s[WEBSOCKET_HEADER_LEN..])
    case Close => false
    case Wrong => false
    case Frame(off, len, _) => |s| < off + len || Fine(s[off + len..])
  }

  // ----- a stream that comes in pieces -----

  /** What the first bytes say, more bytes do not change. */
  lemma HeadStays(a: seq<Byte>, b: seq<Byte>)
    requires !ReadHead(a).Short?
    ensures ReadHead(a + b) == ReadHead(a)
  {
    var s := a + b;
    assert s[0] == a[0] && s[1] == a[1];
    if |a| >= 4 { assert s[2..4] == a[2..4]; }
    if |a| >= 10 { assert s[2..10] == a[2..10]; }
    forall off: nat, size: int | 2 <= off <= |a| && !ReadMask(a, off, size).Short?
      ensures ReadMask(s, off, size) == ReadMask(a, off, size)
    {
      if off + WEBSOCKET_MASK_LEN <= |a| {
        assert s[off..off + WEBSOCKET_MASK_LEN] == a[off..off + WEBSOCKET_MASK_LEN];
      }
    }
  }

  /** One step of reading a stream. */
  lemma OneStep(s: seq<Byte>)
    ensures
      var h := ReadHead(s);
      (h.Skip? ==>
        var t := s[WEBSOCKET_HEADER_LEN..];
        |t| < |s| && Packets(s) == Packets(t) && Rest(s) == Rest(t) && (Fine(s) <==> Fine(t))) &&
      (h.Frame? && h.off + h.len <= |s| ==>
        var t := s[h.off + h.len..];
        |t| < |s| && Packets(s) == [Masked(h.key, s[h.off..h.off + h.len], 0)] + Packets(t) && Rest(s) == Rest(t) &&
        (Fine(s) <==> Fine(t))) &&
      (h.Short? || (h.Frame? && h.off + h.len > |s|) ==> Packets(s) == [] && Rest(s) == s && Fine(s)) &&
      (h.Close? || h.Wrong? ==> !Fine(s))
  {
  }

  /** The same step with more bytes behind. */
  lemma SameStep(a: seq<Byte>, b: seq<Byte>)
    requires !ReadHead(a).Short?
    ensures ReadHead(a + b) == ReadHead(a)
    ensures
      var h := ReadHead(a);
      (h.Skip? ==> (a + b)[WEBSOCKET_HEADER_LEN..] == a[WEBSOCKET_HEADER_LEN..] + b) &&
      (h.Frame? && h.off + h.len <= |a| ==>
        (a + b)[h.off + h.len..] == a[h.off + h.len..] + b && (a + b)[h.off..h.off + h.len] == a[h.off..h.off + h.len])
  {
    HeadStays(a, b);
  }

  /** Reading may stop anywhere and go on with what is left and the next piece. */
  lemma {:induction false} Pieces(a: seq<Byte>, b: seq<Byte>)
    requires Fine(a)
    ensures Packets(a + b) == Packets(a) + Packets(Rest(a) + b)
    ensures Rest(a + b) == Rest(Rest(a) + b)
    ensures Fine(a + b) <==> Fine(Rest(a) + b)
    decreases |a|
  {
    hide ReadHead, Packets, Rest, Fine, Masked;
    OneStep(a);
    OneStep(a + b);
    var h := ReadHead(a);
    if !h.Short? { SameStep(a, b); }
    if h.Skip? {
      Pieces(a[WEBSOCKET_HEADER_LEN..], b);
    } else if h.Frame? && h.off + h.len <= |a| {
      Pieces(a[h.off + h.len..], b);
    } else {
      assert Packets(a + b) == [] + Packets(a + b);
    }
  }

  lemma {:induction false} FinePrefix(a: seq<Byte>, b: seq<Byte>)
    requires Fine(a + b)
    ensures Fine(a)
    decreases |a|
  {
    hide ReadHead, Packets, Rest, Fine, Masked;
    OneStep(a);
    OneStep(a + b);
    var h := ReadHead(a);
    if !h.Short? { SameStep(a, b); }
    if h.Skip? {
      FinePrefix(a[WEBSOCKET_HEADER_LEN..], b);
    } else if h.Frame? && h.off + h.len <= |a| {
      FinePrefix(a[h.off + h.len..], b);
    }
  }

  /** What is left has no complete frame. */
  lemma {:induction false} RestIsOpen(s: seq<Byte>)
    requires Fine(s)
    ensures Open(Rest(s))
    decreases |s|
  {
    match ReadHead(s)
    case Skip => RestIsOpen(s[WEBSOCKET_HEADER_LEN..]);
    case Frame(off, len, _) => if off + len <= |s| { RestIsOpen(s[off + len..]); }
    case _ =>
  }

  /** The beginning of a frame, not all of it. */
  predicate Open(s: seq<Byte>) {
    var h := ReadHead(s);
    h.Short? || (h.Frame? && |s| < h.off + h.len)
  }

  // ----- writing frames -----

  /** A frame that is not fragmented; `form` is how its length is written: in 7 bits, in 16, or in 64. */
  datatype Message = Message(opcode: nat, form: nat, key: Option<seq<Byte>>, payload: seq<Byte>)

  predicate WellFormed(m: Message) {
    m.opcode < 16 && (m.key.Some? ==> |m.key.value| == WEBSOCKET_MASK_LEN) && m.form <= 2 &&
    |m.payload| < if m.form == 0 then 126 else if m.form == 1 then W16 else W32 * W32 / 2
  }

  /** A data frame whose length fits an `int`. */
  predicate DataFrame(m: Message) {
    WellFormed(m) && m.opcode != 0 && m.opcode != 8 && |m.payload| < W32 / 2
  }

  /** What the reader takes as a message of its own. */
  predicate Readable(m: Message) { DataFrame(m) && |m.payload| <= 10240 }

  function ToBigEndian(x: nat, n: nat): (s: seq<Byte>)
    ensures |s| == n
  {
    if n == 0 then [] else ToBigEndian(x / 256, n - 1) + [x % 256]
  }

  lemma {:induction false} BigEndianBack(x: nat, n: nat)
    ensures x < Pow(2, 8 * n) ==> BigEndian(ToBigEndian(x, n)) == x
  {
    if n > 0 {
      var s := ToBigEndian(x, n);
      assert s[..n - 1] == ToBigEndian(x / 256, n - 1);
      BigEndianBack(x / 256, n - 1);
      BytePow(n);
    }
  }

  lemma FourBits(m: nat)
    ensures Pow(2, m + 4) == 16 * Pow(2, m)
  {
    assert Pow(2, m + 1) == 2 * Pow(2, m);
    assert Pow(2, m + 2) == 2 * Pow(2, m + 1);
    assert Pow(2, m + 3) == 2 * Pow(2, m + 2);
  }

  lemma BytePow(n: nat)
    requires n > 0
    ensures Pow(2, 8 * n) == 256 * Pow(2, 8 * (n - 1))
  {
    hide Pow;
    FourBits(8 * (n - 1));
    FourBits(8 * (n - 1) + 4);
  }

  /** The length field with the mask bit. */
  function LengthField(n: nat, form: nat, masked: bool): (s: seq<Byte>)
    requires form == 0 ==> n < 126
  {
    var bit := if masked then 128 else 0;
    if form == 0 then [bit + n]
    else if form == 1 then [bit + 126] + ToBigEndian(n, 2)
    else [bit + 127] + ToBigEndian(n, 8)
  }

  /** A frame on the wire, by section 5.2 of RFC 6455. */
  function Wire(m: Message): seq<Byte>
    requires WellFormed(m)
  {
    [128 + m.opcode] + LengthField(|m.payload|, m.form, m.key.Some?) +
    (if m.key.Some? then m.key.value else []) + Masked(m.key, m.payload, 0)
  }

  function WireAll(ms: seq<Message>): seq<Byte>
    requires forall i :: 0 <= i < |ms| ==> WellFormed(ms[i])
  {
    if ms == [] then [] else Wire(ms[0]) + WireAll(ms[1..])
  }

  function Payloads(ms: seq<Message>): seq<seq<Byte>> {
    seq(|ms|, i requires 0 <= i < |ms| => ms[i].payload)
  }

  /** The length field is read as the length. */
  lemma LengthBack(s: seq<Byte>, opcode: nat, n: nat, form: nat, masked: bool)
    requires 0 < opcode < 16 && opcode != 8 && form <= 2
    requires n < if form == 0 then 126 else if form == 1 then W16 else W32 / 2
    requires
      var field := LengthField(n, form, masked);
      |s| >= 1 + |field| && s[0] == 128 + opcode && s[1..1 + |field|] == field
    ensures ReadHead(s) == ReadMask(s, 1 + |LengthField(n, form, masked)|, n) && (s[1] / 128 == 1 <==> masked)
  {
    hide Pow, BigEndian, ToBigEndian, ReadMask;
    var field := LengthField(n, form, masked);
    assert s[1] == field[0] && forall k :: 1 <= k < |field| ==> s[k + 1] == field[k];
    FirstByte(opcode);
    SecondByte(if form == 0 then n else if form == 1 then 126 else 127, masked);
    LengthsBack(n);
    if form == 1 {
      assert s[2..4] == ToBigEndian(n, 2);
    } else if form == 2 {
      assert s[2..10] == ToBigEndian(n, 8);
    }
  }

  lemma LengthsBack(n: nat)
    ensures n < W16 ==> BigEndian(ToBigEndian(n, 2)) == n
    ensures n < W32 ==> BigEndian(ToBigEndian(n, 8)) == n
  {
    hide BigEndian, ToBigEndian;
    TwoPowers();
    BigEndianBack(n, 2);
    BigEndianBack(n, 8);
  }

  lemma FirstByte(opcode: nat)
    requires opcode < 16
    ensures (128 + opcode) / 128 == 1 && (128 + opcode) / 16 % 8 == 0 && (128 + opcode) % 16 == opcode
  {
  }

  lemma SecondByte(n: nat, masked: bool)
    requires n < 128
    ensures var b := (if masked then 128 else 0) + n; b % 128 == n && (b / 128 == 1 <==> masked)
  {
  }

  /** The head of a frame on the wire is read as what it says. */
  lemma HeadOf(m: Message)
    requires DataFrame(m)
    ensures
      var h := ReadHead(Wire(m));
      h.Frame? && h.len == Min(|m.payload|, MAX_PACKSIZE) && h.key == m.key && |Wire(m)| == h.off + |m.payload| &&
      Wire(m)[h.off..] == Masked(m.key, m.payload, 0)
  {
    var w := Wire(m);
    var field := LengthField(|m.payload|, m.form, m.key.Some?);
    var key := if m.key.Some? then m.key.value else [];
    var off := 1 + |field|;
    var body := Masked(m.key, m.payload, 0);
    assert w == [128 + m.opcode] + field + (key + body) && w[1..1 + |field|] == field;
    LengthBack(w, m.opcode, |m.payload|, m.form, m.key.Some?);
    hide LengthField, Masked, ReadHead;
    assert w[off..off + |key|] == key && w[off + |key|..] == body;
  }

  lemma TwoPowers()
    ensures Pow(2, 8 * 2) == W16 && Pow(2, 8 * 8) == W32 * W32
  {
    EightBits();
    hide Pow;
    BytePow(2);
    BytePow(3);
    BytePow(4);
    BytePow(5);
    BytePow(6);
    BytePow(7);
    BytePow(8);
  }

  /** Frames written one behind the other are read as their payloads, and nothing is left. */
  lemma {:induction false} FramesBack(ms: seq<Message>)
    requires forall i :: 0 <= i < |ms| ==> WellFormed(ms[i]) && Readable(ms[i])
    ensures Fine(WireAll(ms)) && Packets(WireAll(ms)) == Payloads(ms) && Rest(WireAll(ms)) == []
  {
    if ms != [] {
      FrameBack(ms[0], WireAll(ms[1..]));
      FramesBack(ms[1..]);
      assert Payloads(ms) == [ms[0].payload] + Payloads(ms[1..]);
    }
  }

  lemma FrameBack(m: Message, b: seq<Byte>)
    requires WellFormed(m) && Readable(m)
    ensures
      var s := Wire(m) + b;
      Packets(s) == [m.payload] + Packets(b) && Rest(s) == Rest(b) && (Fine(s) <==> Fine(b))
  {
    hide Wire, ReadHead, Masked, Packets, Rest, Fine;
    var a := Wire(m);
    HeadOf(m);
    SameStep(a, b);
    OneStep(a + b);
    MaskTwice(m.key, m.payload, 0);
    var h := ReadHead(a);
    assert a[h.off..h.off + h.len] == a[h.off..] && a[h.off + h.len..] + b == b;
  }

  /** A frame is read as its payload exactly if the payload is not above the limit; a longer one is cut there, and
      what is behind is taken for the next frame. */
  lemma WholeExactly(m: Message)
    requires DataFrame(m)
    ensures Packets(Wire(m)) == [m.payload] && Rest(Wire(m)) == [] <==> |m.payload| <= 10240
    ensures Packets(Wire(m)) != [] && Packets(Wire(m))[0] == m.payload[..Min(|m.payload|, 10240)]
  {
    if |m.payload| <= MAX_PACKSIZE {
      FrameBack(m, []);
      assert Wire(m) + [] == Wire(m) && m.payload[..|m.payload|] == m.payload;
    } else {
      CutFrame(m);
    }
  }

  lemma CutFrame(m: Message)
    requires DataFrame(m) && |m.payload| > MAX_PACKSIZE
    ensures Packets(Wire(m)) != [] && Packets(Wire(m))[0] == m.payload[..MAX_PACKSIZE]
  {
    hide Wire, ReadHead, Masked, Packets, Rest, Fine;
    HeadOf(m);
    OneStep(Wire(m));
    var h := ReadHead(Wire(m));
    var p, q := m.payload[..MAX_PACKSIZE], m.payload[MAX_PACKSIZE..];
    MaskSplit(m.key, p, q, 0);
    MaskTwice(m.key, p, 0);
    assert p + q == m.payload;
    assert Wire(m)[h.off..h.off + MAX_PACKSIZE] == Wire(m)[h.off..][..MAX_PACKSIZE] == Masked(m.key, p, 0);
  }

  /** `lpack`: a message as one binary frame without a mask, its length in the shortest form. */
  function Packed(s: seq<Byte>): Message {
    Message(2, if |s| < 126 then 0 else if |s| < W16 then 1 else 2, None, s)
  }
}
