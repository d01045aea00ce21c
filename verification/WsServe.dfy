/** Whole runs of the WebSocket filter over pieces of many connections, and the frames that `lpack` writes. */
module WsServe {
  import opened Common
  import opened WsFrames
  import opened WsFilter

  /** What the socket tells: a piece of the stream of a connection, or that the connection is closed or has failed. */
  datatype Event = Piece(fd: int, bytes: seq<Byte>) | Closed(fd: int)

  /** The streams of a connection: a new one begins after each close. */
  function Streams(events: seq<Event>, fd: int): (r: seq<seq<Byte>>)
    ensures r != []
  {
    if events == [] then [[]]
    else
      var n := |events| - 1;
      var r := Streams(events[..n], fd);
      if events[n].fd != fd then r
      else if events[n].Closed? then r + [[]]
      else r[..|r| - 1] + [r[|r| - 1] + events[n].bytes]
  }

  function Last(streams: seq<seq<Byte>>): seq<Byte>
    requires streams != []
  {
    streams[|streams| - 1]
  }

  function AllPackets(streams: seq<seq<Byte>>): seq<seq<Byte>> {
    if streams == [] then [] else AllPackets(streams[..|streams| - 1]) + Packets(Last(streams))
  }

  /** The messages of one connection. */
  function Of(out: seq<Pack>, fd: int): seq<seq<Byte>> {
    if out == [] then []
    else
      var n := |out| - 1;
      Of(out[..n], fd) + if out[n].id == fd then [out[n].bytes] else []
  }

  lemma {:induction false} OfPlus(a: seq<Pack>, b: seq<Pack>, fd: int)
    ensures Of(a + b, fd) == Of(a, fd) + Of(b, fd)
  {
    if b == [] {
      assert a + b == a;
    } else {
      var n := |b| - 1;
      assert (a + b)[..|a + b| - 1] == a + b[..n];
      OfPlus(a, b[..n], fd);
    }
  }

  lemma {:induction false} OfPacks(fd: int, bs: seq<seq<Byte>>, other: int)
    ensures Of(Packs(fd, bs), other) == if other == fd then bs else []
  {
    if bs != [] {
      var n := |bs| - 1;
      assert Packs(fd, bs)[..n] == Packs(fd, bs[..n]);
      OfPacks(fd, bs[..n], other);
      assert bs == bs[..n] + [bs[n]];
    }
  }

  /** What a run has told so far, and what waits. */
  ghost predicate Told(events: seq<Event>, out: seq<Pack>, pending: Pending) {
    forall fd :: Of(out, fd) == AllPackets(Streams(events, fd)) && Waits(pending, fd) == Rest(Last(Streams(events, fd)))
  }

  /** The last stream of every connection may be read. */
  ghost predicate AllFine(events: seq<Event>) { forall fd :: Fine(Last(Streams(events, fd))) }

  lemma OnePiece(events: seq<Event>, fd: int, bytes: seq<Byte>, other: int)
    ensures
      var r, r' := Streams(events, other), Streams(events + [Piece(fd, bytes)], other);
      if other != fd then r' == r
      else Last(r') == Last(r) + bytes && AllPackets(r') == AllPackets(r[..|r| - 1]) + Packets(Last(r) + bytes)
  {
    var e := events + [Piece(fd, bytes)];
    assert e[..|e| - 1] == events;
    if other == fd {
      var r, r' := Streams(events, fd), Streams(e, fd);
      assert r'[..|r'| - 1] == r[..|r| - 1];
    }
  }

  lemma OneClose(events: seq<Event>, fd: int, other: int)
    ensures
      var r, r' := Streams(events, other), Streams(events + [Closed(fd)], other);
      if other != fd then r' == r else Last(r') == [] && AllPackets(r') == AllPackets(r)
  {
    var e := events + [Closed(fd)];
    assert e[..|e| - 1] == events;
    if other == fd {
      var r, r' := Streams(events, fd), Streams(e, fd);
      assert r'[..|r'| - 1] == r && Last(r') == [];
      Ended();
    }
  }

  /** A piece goes on where the stream was left. */
  lemma ToldPiece(events: seq<Event>, out: seq<Pack>, pending: Pending, fd: int, bytes: seq<Byte>)
    requires Told(events, out, pending) && AllFine(events)
    ensures
      var t := Waits(pending, fd) + bytes;
      Told(events + [Piece(fd, bytes)], out + Packs(fd, Packets(t)), pending[fd := Rest(t)])
  {
    hide Of, Packets, Rest, Fine, Streams, AllPackets, Packs;
    var t := Waits(pending, fd) + bytes;
    var out', pending', events' := out + Packs(fd, Packets(t)), pending[fd := Rest(t)], events + [Piece(fd, bytes)];
    forall other
      ensures Of(out', other) == AllPackets(Streams(events', other))
      ensures Waits(pending', other) == Rest(Last(Streams(events', other)))
    {
      assert Fine(Last(Streams(events, fd)));
      assert Waits(pending', other) == if other == fd then Rest(t) else Waits(pending, other);
      ToldPieceOf(events, out, pending, fd, bytes, other);
    }
  }

  lemma ToldPieceOf(events: seq<Event>, out: seq<Pack>, pending: Pending, fd: int, bytes: seq<Byte>, other: int)
    requires Of(out, other) == AllPackets(Streams(events, other))
    requires Waits(pending, other) == Rest(Last(Streams(events, other))) && Fine(Last(Streams(events, fd)))
    ensures
      var t := Waits(pending, fd) + bytes;
      var streams := Streams(events + [Piece(fd, bytes)], other);
      Of(out + Packs(fd, Packets(t)), other) == AllPackets(streams) &&
      Rest(Last(streams)) == if other == fd then Rest(t) else Waits(pending, other)
  {
    hide Of, Packets, Rest, Fine, Streams, Packs;
    var t := Waits(pending, fd) + bytes;
    OnePiece(events, fd, bytes, other);
    OfPlus(out, Packs(fd, Packets(t)), other);
    OfPacks(fd, Packets(t), other);
    if other == fd { Pieces(Last(Streams(events, fd)), bytes); }
  }

  lemma ToldClose(events: seq<Event>, out: seq<Pack>, pending: Pending, fd: int)
    requires Told(events, out, pending)
    ensures Told(events + [Closed(fd)], out, pending[fd := []])
  {
    var pending', events' := pending[fd := []], events + [Closed(fd)];
    forall other
      ensures Of(out, other) == AllPackets(Streams(events', other))
      ensures Waits(pending', other) == Rest(Last(Streams(events', other)))
    {
      hide Of, Packets, Rest, Fine, Streams, AllPackets;
      OneClose(events, fd, other);
      Ended();
    }
  }

  /** The loop over `lpop` that the gate runs when it is told that there is more. */
  method Drain(np: NetPack) returns (out: seq<Pack>)
    requires np.Valid()
    modifies np`head
    ensures np.Valid() && np.Contents() == [] && out == old(np.Contents())
  {
    hide np.Contents, MQ.Window;
    out := [];
    var pack := np.Pop();
    while pack.Some?
      invariant np.Valid() && old(np.Contents()) == out + (if pack.Some? then [pack.value] else []) + np.Contents()
      invariant pack == None ==> np.Contents() == []
      decreases |np.Contents()|, pack.Some?
    {
      out := out + [pack.value];
      pack := np.Pop();
    }
  }

  /** The streams of a run can be read, and no piece is empty. */
  ghost predicate Acceptable(events: seq<Event>) {
    forall i :: 0 <= i < |events| ==> AllFine(events[..i + 1]) && (events[i].Piece? ==> events[i].bytes != [])
  }

  /** One event. */
  method Serve(np: NetPack, e: Event, ghost events: seq<Event>, ghost told: seq<Pack>) returns (out: seq<Pack>)
    requires np.Valid() && np.Contents() == [] && Told(events, told, np.pending)
    requires AllFine(events) && AllFine(events + [e]) && (e.Piece? ==> e.bytes != [])
    modifies np, np.hash, np.queue
    ensures np.Valid() && np.Contents() == [] && (np.queue == old(np.queue) || fresh(np.queue))
    ensures Told(events + [e], told + out, np.pending)
  {
    hide Told, AllFine, Packets, Rest, Fine, Streams, Of, TableOk, MQ.Window, MQ.Length;
    match e
    case Closed(fd) =>
      np.CloseUncomplete(fd);
      ToldClose(events, told, old(np.pending), fd);
      out := [];
      assert told + [] == told;
    case Piece(fd, bytes) =>
      var buffer := new Byte[|bytes|](i requires 0 <= i < |bytes| => bytes[i]);
      assert buffer[..] == bytes;
      GoesOn(events, told, np.pending, fd, bytes);
      ToldPiece(events, told, np.pending, fd, bytes);
      ghost var t := Waits(np.pending, fd) + bytes;
      var reply := np.Filter(fd, buffer);
      match reply
      case Nothing =>
        out := [];
        assert Packs(fd, []) == [];
      case Data(payload) =>
        out := [Pack(fd, payload)];
        assert Packs(fd, [payload]) == out;
      case More =>
        out := Drain(np);
        assert [] + Packs(fd, Packets(t)) == Packs(fd, Packets(t));
  }

  /** What waits and the next piece can be read if the whole stream can. */
  lemma GoesOn(events: seq<Event>, told: seq<Pack>, pending: Pending, fd: int, bytes: seq<Byte>)
    requires Told(events, told, pending) && AllFine(events) && AllFine(events + [Piece(fd, bytes)])
    ensures Fine(Waits(pending, fd) + bytes)
  {
    hide Of, AllPackets, Packets, Rest, Fine, Streams;
    OnePiece(events, fd, bytes, fd);
    assert Fine(Last(Streams(events + [Piece(fd, bytes)], fd)));
    assert Fine(Last(Streams(events, fd)));
    Pieces(Last(Streams(events, fd)), bytes);
  }

  /** Any number of connections, their streams cut and mixed in any way: the messages of each connection are the
      payloads of its streams. */
  method Run(events: seq<Event>) returns (out: seq<Pack>)
    requires Acceptable(events)
    ensures forall fd :: Of(out, fd) == AllPackets(Streams(events, fd))
  {
    hide Streams, Of, AllPackets, AllFine, Told, MQ.Window, MQ.Length, TableOk;
    var np := new NetPack();
    out := [];
    NothingTold();
    var i := 0;
    while i < |events|
      invariant 0 <= i <= |events| && fresh(np) && fresh(np.hash) && fresh(np.queue)
      invariant np.Valid() && np.Contents() == [] && AllFine(events[..i]) && Told(events[..i], out, np.pending)
    {
      assert events[..i + 1] == events[..i] + [events[i]];
      var more := Serve(np, events[i], events[..i], out);
      out := out + more;
      i := i + 1;
    }
    assert events[..i] == events;
    ToldAll(events, out, np.pending);
  }

  lemma NothingTold()
    ensures Told([], [], map[]) && AllFine([])
  {
    Ended();
  }

  lemma ToldAll(events: seq<Event>, out: seq<Pack>, pending: Pending)
    requires Told(events, out, pending)
    ensures forall fd :: Of(out, fd) == AllPackets(Streams(events, fd))
  {
  }

  /** A stream that holds frames, up to any place: what has come so far are the first payloads. */
  lemma FramesSoFar(ms: seq<Message>, a: seq<Byte>, b: seq<Byte>)
    requires forall i :: 0 <= i < |ms| ==> WellFormed(ms[i]) && Readable(ms[i])
    requires a + b == WireAll(ms)
    ensures Fine(a) && Packets(a) <= Payloads(ms) && (b == [] ==> Packets(a) == Payloads(ms))
  {
    hide Packets, Rest, Fine, WireAll, Payloads;
    FramesBack(ms);
    FinePrefix(a, b);
    Pieces(a, b);
    assert b == [] ==> a + b == a;
  }

  // ----- lpack -----

  /** `FRAME_SET_LENGTH` */
  function LengthByte(n: nat, i: nat): Byte { if i == 0 then n % 256 else LengthByte(n / 256, i - 1) }

  /** Written with the highest byte first. */
  lemma {:induction false} LengthBytes(n: nat, k: nat, i: nat)
    requires i < k
    ensures ToBigEndian(n, k)[i] == LengthByte(n, k - 1 - i)
  {
    if i < k - 1 { LengthBytes(n / 256, k - 1, i); }
  }

  /** `lpack` */
  method LPack(s: seq<Byte>) returns (buffer: array<Byte>)
    requires |s| < W32 * W32 / 2
    ensures fresh(buffer) && WellFormed(Packed(s)) && buffer[..] == Wire(Packed(s))
  {
    var n := |s|;
    var header: seq<Byte> := [128 + 2];
    if n < 126 {
      header := header + [n];
    } else {
      if n < 65536 {
        header := header + [126];
      } else {
        header := header + [127, LengthByte(n, 7), LengthByte(n, 6), LengthByte(n, 5), LengthByte(n, 4),
                            LengthByte(n, 3), LengthByte(n, 2)];
      }
      header := header + [LengthByte(n, 1), LengthByte(n, 0)];
    }
    HeaderIs(s, header);
    buffer := new Byte[|header| + n](i requires 0 <= i < |header| + n => if i < |header| then header[i]
      else s[i - |header|]);
    assert buffer[..] == header + s;
  }

  lemma HeaderIs(s: seq<Byte>, header: seq<Byte>)
    requires |s| < W32 * W32 / 2
    requires
      var n := |s|;
      header == [128 + 2] +
        if n < 126 then [n]
        else if n < 65536 then [126, LengthByte(n, 1), LengthByte(n, 0)]
        else [127, LengthByte(n, 7), LengthByte(n, 6), LengthByte(n, 5), LengthByte(n, 4), LengthByte(n, 3),
              LengthByte(n, 2), LengthByte(n, 1), LengthByte(n, 0)]
    ensures WellFormed(Packed(s)) && header + s == Wire(Packed(s))
  {
    hide LengthByte, ToBigEndian;
    var m, n := Packed(s), |s|;
    forall k: nat, i: nat | i < k && k <= 8 ensures ToBigEndian(n, k)[i] == LengthByte(n, k - 1 - i) {
      LengthBytes(n, k, i);
    }
    assert header == [128 + 2] + LengthField(n, m.form, false);
    assert header + s == [128 + 2] + LengthField(n, m.form, false) + [] + s;
  }

  /** A message that is packed is read back exactly if it is not above the limit. */
  lemma PackedBack(s: seq<Byte>)
    requires |s| < W32 / 2
    ensures Packets(Wire(Packed(s))) == [s] && Rest(Wire(Packed(s))) == [] <==> |s| <= 10240
  {
    WholeExactly(Packed(s));
  }
}
