/** The filter of lua-websocketnetpack.c: pieces of many streams come in any order, a frame that is not complete waits
    in a table by connection, and complete payloads are handed out at once or by a queue. */
module WsFilter {
  import opened Common
  import opened WsFrames
  import MQ = MessageQueue

  const QUEUESIZE := 1024
  const HASHSIZE := 4096
  const HEADERSIZE := 1024

  /** `struct netpack` */
  datatype Pack = Pack(id: int, bytes: seq<Byte>)

  /** `struct uncomplete`; `buffer` and `header` are the parts that are filled. */
  datatype Uncomplete = Uncomplete(id: int, size: int, buffer: seq<Byte>, header: seq<Byte>, read: int,
                                   key: Option<seq<Byte>>, unmasked: nat)

  /** `hash_fd` */
  function HashFd(fd: int): (h: nat)
    ensures h < HASHSIZE
  {
    (fd / 0x100_0000 + fd / 0x1000 + fd) % HASHSIZE
  }

  // ----- chains -----

  type Chain = seq<Uncomplete>

  predicate ChainOk(c: Chain, h: nat) {
    (forall i :: 0 <= i < |c| ==> HashFd(c[i].id) == h) &&
    forall i, j :: 0 <= i < j < |c| ==> c[i].id != c[j].id
  }

  /** Where the record of a connection is. */
  function Place(c: Chain, fd: int): (i: nat)
    ensures i <= |c| && (i < |c| ==> c[i].id == fd) && forall j :: 0 <= j < i ==> c[j].id != fd
  {
    if c == [] || c[0].id == fd then 0
    else
      assert forall j :: 0 < j < |c| ==> c[j] == c[1..][j - 1];
      1 + Place(c[1..], fd)
  }

  function Find(c: Chain, fd: int): Option<Uncomplete> {
    var i := Place(c, fd);
    if i < |c| then Some(c[i]) else None
  }

  function Without(c: Chain, fd: int): Chain {
    var i := Place(c, fd);
    if i < |c| then c[..i] + c[i + 1..] else c
  }

  lemma PlaceIs(c: Chain, fd: int, i: nat)
    requires i < |c| && c[i].id == fd && forall j :: 0 <= j < i ==> c[j].id != fd
    ensures Place(c, fd) == i
  {
  }

  /** Taking a record out of a chain leaves the others. */
  lemma WithoutKeeps(c: Chain, fd: int, h: nat)
    requires ChainOk(c, h)
    ensures ChainOk(Without(c, fd), h) && Find(Without(c, fd), fd) == None
    ensures forall other :: other != fd ==> Find(Without(c, fd), other) == Find(c, other)
  {
    hide Place, HashFd;
    var p, w := Place(c, fd), Without(c, fd);
    assert forall j :: 0 <= j < |w| ==> w[j] == if j < p then c[j] else c[j + 1];
    forall other | other != fd ensures Find(w, other) == Find(c, other) {
      var i := Place(c, other);
      if i < |c| {
        PlaceIs(w, other, if i < p then i else i - 1);
      }
    }
  }

  /** A new record comes first. */
  lemma WithFirst(c: Chain, u: Uncomplete, h: nat)
    requires ChainOk(c, h) && HashFd(u.id) == h && Find(c, u.id) == None
    ensures ChainOk([u] + c, h) && Find([u] + c, u.id) == Some(u)
    ensures forall other :: other != u.id ==> Find([u] + c, other) == Find(c, other)
  {
    assert ([u] + c)[1..] == c;
    assert forall i :: 0 <= i < |c| ==> c[i].id != u.id;
  }

  // ----- what the table stands for -----

  /** A record, or none, stands for the bytes of an incomplete frame. */
  predicate Represents(u: Option<Uncomplete>, p: seq<Byte>) {
    Open(p) && (u == None ==> p == []) &&
    (u.Some? ==>
      if ReadHead(p).Short? then u.value.read == -1 && u.value.header == p else u.value.read >= 0 && Filled(u.value, p))
  }

  /** A record whose head is complete has what came of the payload, unmasked. */
  predicate Filled(u: Uncomplete, p: seq<Byte>) {
    var h := ReadHead(p);
    h.Frame? && u.size == h.len && u.key == h.key && u.read == |p| - h.off && |p| <= h.off + h.len &&
    u.buffer == Masked(h.key, p[h.off..], 0) && (h.key.Some? ==> u.unmasked == u.read)
  }

  /** The bytes of incomplete frames, by connection. */
  type Pending = map<int, seq<Byte>>

  function Waits(pending: Pending, fd: int): seq<Byte> { if fd in pending then pending[fd] else [] }

  ghost predicate TableOk(table: seq<Chain>, pending: Pending) {
    |table| == HASHSIZE && (forall h :: 0 <= h < HASHSIZE ==> ChainOk(table[h], h)) &&
    forall fd :: Represents(Find(table[HashFd(fd)], fd), Waits(pending, fd))
  }

  predicate Absent(table: seq<Chain>, fd: int)
    requires |table| == HASHSIZE
  {
    Find(table[HashFd(fd)], fd) == None
  }

  lemma TakenOut(table: seq<Chain>, pending: Pending, fd: int)
    requires TableOk(table, pending)
    ensures
      var h := HashFd(fd);
      var t := table[h := Without(table[h], fd)];
      TableOk(t, pending[fd := []]) && Absent(t, fd) && Represents(Find(table[h], fd), Waits(pending, fd))
  {
    hide Find, Without, ChainOk, Represents, HashFd, Place;
    var h := HashFd(fd);
    WithoutKeeps(table[h], fd, h);
    Nothing();
  }

  lemma TableSize(table: seq<Chain>, pending: Pending)
    requires TableOk(table, pending)
    ensures |table| == HASHSIZE
  {
  }

  lemma Nothing()
    ensures Represents(None, [])
  {
  }

  /** For a connection without a record nothing waits. */
  lemma NothingWaits(table: seq<Chain>, pending: Pending, fd: int)
    requires TableOk(table, pending) && Absent(table, fd)
    ensures TableOk(table, pending[fd := []]) && Waits(pending, fd) == []
  {
    assert Represents(Find(table[HashFd(fd)], fd), Waits(pending, fd));
    hide Find, Place, HashFd, ChainOk, Represents;
    Nothing();
  }

  lemma PutIn(table: seq<Chain>, pending: Pending, u: Uncomplete, p: seq<Byte>)
    requires TableOk(table, pending) && Absent(table, u.id) && Represents(Some(u), p)
    ensures
      var h := HashFd(u.id);
      TableOk(table[h := [u] + table[h]], pending[u.id := p])
  {
    hide ChainOk, Represents, HashFd, Find, Place;
    var h := HashFd(u.id);
    WithFirst(table[h], u, h);
  }

  // ----- the queue -----

  function Packs(fd: int, bs: seq<seq<Byte>>): (r: seq<Pack>)
    ensures |r| == |bs|
  {
    seq(|bs|, i requires 0 <= i < |bs| => Pack(fd, bs[i]))
  }

  lemma PacksPush(fd: int, a: seq<seq<Byte>>, b: seq<Byte>, t: seq<seq<Byte>>)
    requires a == [b] + t
    ensures Packs(fd, a) == [Pack(fd, b)] + Packs(fd, t)
  {
  }

  /** What the filter answers: nothing yet, one message, or messages in the queue. */
  datatype Reply = Nothing | Data(bytes: seq<Byte>) | More

  /** `decode_wsmask_data`: the bytes are unmasked in place. */
  method DecodeMask(buffer: array<Byte>, at: nat, size: nat, key: Option<seq<Byte>>, unmasked: nat) returns (done: nat)
    requires at + size <= buffer.Length && (key.Some? ==> |key.value| == WEBSOCKET_MASK_LEN)
    modifies buffer
    ensures buffer[at..at + size] == Masked(key, old(buffer[at..at + size]), if key == None then 0 else unmasked)
    ensures key.Some? ==> BitsAdded(buffer[at..at + size], old(buffer[at..at + size]), key.value, unmasked)
    ensures buffer[..at] == old(buffer[..at]) && buffer[at + size..] == old(buffer[at + size..])
    ensures done == if key == None then unmasked else unmasked + size
  {
    if key == None { return unmasked; }
    ghost var was := buffer[..];
    var i := 0;
    while i < size
      invariant 0 <= i <= size
      invariant forall k :: 0 <= k < buffer.Length ==>
        buffer[k] ==
          if at <= k < at + i then XorByte(was[k], key.value[(k - at + unmasked) % WEBSOCKET_MASK_LEN]) else was[k]
    {
      buffer[at + i] := XorByte(buffer[at + i], key.value[(i + unmasked) % WEBSOCKET_MASK_LEN]);
      i := i + 1;
    }
    assert buffer[at..at + size] == Masked(key, was[at..at + size], unmasked);
    hide Masked, XorByte, BitsAdded;
    MaskedBits(key.value, was[at..at + size], unmasked);
    return unmasked + size;
  }

  lemma LengthFromZero(tail: nat, cap: nat)
    requires tail < cap
    ensures MQ.Length(0, tail, cap) == tail
  {
  }

  class NetPack {
    const hash: array<Chain>
    var queue: array<Pack>
    var cap: int
    var head: int
    var tail: int
    ghost var pending: Pending

    ghost predicate Ringed()
      reads this
    {
      cap == queue.Length && 0 <= head < cap && 0 <= tail < cap
    }

    ghost predicate Valid()
      reads this, hash
    {
      Ringed() && TableOk(hash[..], pending)
    }

    /** The messages in the queue. */
    ghost function Contents(): seq<Pack>
      requires Ringed()
      reads this, queue
    {
      MQ.Window(queue[..], head, MQ.Length(head, tail, cap))
    }

    /** The new queue of `get_queue`. */
    constructor ()
      ensures Valid() && Contents() == [] && fresh(hash) && fresh(queue)
      ensures pending == map[]
    {
      hash := new Chain[HASHSIZE](_ => []);
      queue := new Pack[QUEUESIZE](_ => Pack(0, []));
      cap, head, tail := QUEUESIZE, 0, 0;
      pending := map[];
    }

    /** `expand_queue` */
    method ExpandQueue()
      requires Ringed() && head == tail
      modifies this`queue, this`cap, this`head, this`tail
      ensures Ringed() && fresh(queue) && head != tail
      ensures Contents() == MQ.Window(old(queue[..]), old(head), old(cap))
    {
      hide MQ.Length;
      var larger := new Pack[cap + QUEUESIZE](_ => Pack(0, []));
      ghost var all := MQ.Window(queue[..], head, cap);
      var i := 0;
      while i < cap
        invariant 0 <= i <= cap && unchanged(this) && queue[..] == old(queue[..])
        invariant forall k :: 0 <= k < i ==> larger[k] == all[k]
      {
        larger[i] := queue[(head + i) % cap];
        i := i + 1;
      }
      MQ.WindowStart(larger[..], cap);
      assert larger[..][..cap] == all;
      LengthFromZero(cap, cap + QUEUESIZE);
      head, tail, queue, cap := 0, cap, larger, cap + QUEUESIZE;
    }

    /** `push_data` */
    method PushData(fd: int, bytes: seq<Byte>)
      requires Ringed()
      modifies this`queue, this`cap, this`head, this`tail, queue
      ensures Ringed() && (queue == old(queue) || fresh(queue))
      ensures Contents() == old(Contents()) + [Pack(fd, bytes)]
    {
      ghost var n := MQ.Length(head, tail, cap);
      MQ.Wrap(cap, head + n);
      MQ.WindowPush(queue[..], head, n, tail, Pack(fd, bytes));
      queue[tail] := Pack(fd, bytes);
      tail := tail + 1;
      if tail >= cap { tail := tail - cap; }
      if head == tail { ExpandQueue(); }
    }

    /** `lpop` */
    method Pop() returns (pack: Option<Pack>)
      requires Ringed()
      modifies this`head
      ensures Ringed()
      ensures if old(Contents()) == [] then pack == None && Contents() == []
              else pack == Some(old(Contents())[0]) && Contents() == old(Contents())[1..]
    {
      if head == tail { return None; }
      pack := Some(queue[head]);
      ghost var n := MQ.Length(head, tail, cap);
      MQ.Wrap(cap, head + 1);
      MQ.WindowPop(queue[..], head, n, (head + 1) % cap);
      head := head + 1;
      if head >= cap { head := 0; }
    }

    /** `find_uncomplete`: the record of a connection, taken out of its chain. */
    method FindUncomplete(fd: int) returns (u: Option<Uncomplete>)
      requires Valid()
      modifies this`pending, hash
      ensures Valid() && pending == old(pending)[fd := []] && Absent(hash[..], fd)
      ensures Represents(u, Waits(old(pending), fd)) && (u.Some? ==> u.value.id == fd)
    {
      hide HashFd, TableOk, Represents, Absent, Place;
      var h := HashFd(fd);
      TableSize(hash[..], pending);
      var c := hash[h];
      u := None;
      ghost var table := hash[..];
      TakenOut(table, pending, fd);
      var i := 0;
      while i < |c| && c[i].id != fd
        invariant 0 <= i <= |c| && forall j :: 0 <= j < i ==> c[j].id != fd
      {
        i := i + 1;
      }
      if i < |c| {
        PlaceIs(c, fd, i);
        u := Some(c[i]);
        hash[h] := c[..i] + c[i + 1..];
      }
      assert hash[..] == table[h := Without(c, fd)];
      pending := pending[fd := []];
    }

    /** `save_uncomplete`, or the lines that put a record back. */
    method Save(u: Uncomplete, ghost p: seq<Byte>)
      requires Valid() && Absent(hash[..], u.id) && Represents(Some(u), p)
      modifies this`pending, hash
      ensures Valid() && pending == old(pending)[u.id := p]
    {
      var h := HashFd(u.id);
      PutIn(hash[..], pending, u, p);
      assert hash[..][h := [u] + hash[h]] == hash[..][h := [u] + hash[..][h]];
      ghost var table := hash[..];
      hash[h] := [u] + hash[h];
      assert hash[..] == table[h := [u] + table[h]];
      pending := pending[u.id := p];
    }

    /** The loops of `filter_data_` and `push_more` that throw away two bytes at a time. */
    method SkipBad(buffer: array<Byte>, start: nat) returns (at: nat, h: Head)
      requires start <= buffer.Length && Fine(buffer[start..])
      ensures start <= at <= buffer.Length && h == ReadHead(buffer[at..]) && (h.Short? || h.Frame?)
      ensures Packets(buffer[at..]) == Packets(buffer[start..]) && Rest(buffer[at..]) == Rest(buffer[start..])
      ensures Fine(buffer[at..])
    {
      hide ReadHead, Packets, Rest, Fine;
      at := start;
      h := ReadHead(buffer[at..]);
      while h.Skip?
        invariant start <= at <= buffer.Length && h == ReadHead(buffer[at..]) && Fine(buffer[at..])
        invariant Packets(buffer[at..]) == Packets(buffer[start..]) && Rest(buffer[at..]) == Rest(buffer[start..])
        decreases buffer.Length - at
      {
        OneStep(buffer[at..]);
        assert buffer[at..][WEBSOCKET_HEADER_LEN..] == buffer[at + WEBSOCKET_HEADER_LEN..];
        at := at + WEBSOCKET_HEADER_LEN;
        h := ReadHead(buffer[at..]);
      }
      OneStep(buffer[at..]);
    }

    /** A frame that begins in this piece and does not end in it. */
    method SaveBegun(fd: int, buffer: array<Byte>, at: nat, h: Head)
      requires Valid() && Absent(hash[..], fd)
      requires at <= buffer.Length && h == ReadHead(buffer[at..])
      requires h.Short? || (h.Frame? && buffer.Length - at < h.off + h.len)
      modifies this`pending, hash, buffer
      ensures Valid() && pending == old(pending)[fd := old(buffer[at..])]
    {
      hide ReadHead, Masked, Represents, TableOk;
      ghost var p := buffer[at..];
      if h.Short? {
        ShortRecord(fd, p);
        Save(Uncomplete(fd, 0, [], buffer[at..], -1, None, 0), p);
      } else {
        OpenRecord(fd, p);
        assert p[h.off..] == buffer[at + h.off..buffer.Length];
        var size := buffer.Length - (at + h.off);
        var done := DecodeMask(buffer, at + h.off, size, h.key, 0);
        Save(Uncomplete(fd, h.len, buffer[at + h.off..], [], size, h.key, done), p);
      }
    }

    /** `push_more`: the frames of a piece from `start` on go to the queue, what is left to the table. */
    method PushMore(fd: int, buffer: array<Byte>, start: nat)
      requires Valid() && Absent(hash[..], fd)
      requires start <= buffer.Length && Fine(buffer[start..])
      modifies this`queue, this`cap, this`head, this`tail, this`pending, hash, queue, buffer
      ensures Valid() && (queue == old(queue) || fresh(queue))
      ensures pending == old(pending)[fd := Rest(old(buffer[start..]))]
      ensures Contents() == old(Contents()) + Packs(fd, Packets(old(buffer[start..])))
      decreases buffer.Length - start
    {
      hide ReadHead, Packets, Rest, Fine, Masked, Represents, TableOk, Absent, MQ.Window, MQ.Length;
      ghost var s := buffer[start..];
      var at, h := SkipBad(buffer, start);
      ghost var t := buffer[at..];
      OneStep(t);
      if h.Short? || buffer.Length - at < h.off + h.len {
        SaveBegun(fd, buffer, at, h);
        assert Packs(fd, []) == [];
        return;
      }
      var from, to := at + h.off, at + h.off + h.len;
      assert t[h.off..h.off + h.len] == buffer[from..to] && t[h.off + h.len..] == buffer[to..];
      var _ := DecodeMask(buffer, from, h.len, h.key, 0);
      PacksPush(fd, Packets(t), buffer[from..to], Packets(buffer[to..]));
      PushData(fd, buffer[from..to]);
      if to < buffer.Length {
        PushMore(fd, buffer, to);
      } else {
        Ended();
        NothingWaits(hash[..], pending, fd);
        pending := pending[fd := []];
      }
    }

    /** `filter_data_`, when the head of a record is complete: the payload is filled up, and what is behind it is
        read on. `p` is what has come of the frame before place `at`. */
    method Finish(fd: int, u: Uncomplete, buffer: array<Byte>, at: nat, ghost p: seq<Byte>) returns (reply: Reply)
      requires Valid() && Absent(hash[..], fd) && u.id == fd && Filled(u, p) && u.read >= 0
      requires at <= buffer.Length && Fine(p + buffer[at..])
      modifies this`queue, this`cap, this`head, this`tail, this`pending, hash, queue, buffer
      ensures Valid() && (queue == old(queue) || fresh(queue))
      ensures pending == old(pending)[fd := Rest(p + old(buffer[at..]))]
      ensures Replied(reply, fd, Packets(p + old(buffer[at..])), old(Contents()), Contents())
    {
      hide ReadHead, Packets, Rest, Fine, Masked, Represents, TableOk, Absent, MQ.Window, MQ.Length, Filled, Grown;
      ghost var t := p + buffer[at..];
      var need, size := u.size - u.read, buffer.Length - at;
      FilledHead(u, p, buffer[at..]);
      OneStep(t);
      if size < need {
        assert buffer[at..at + size] == buffer[at..];
        FillMore(u, p, buffer[at..]);
        var u' := Fill(u, buffer, at, size);
        Save(u', t);
        return Reply.Nothing;
      }
      var to := at + need;
      ghost var x := buffer[at..to];
      FillMore(u, p, x);
      FilledWhole(Grown(u, x), p + x, buffer[to..]);
      assert t == p + x + buffer[to..];
      var u' := Fill(u, buffer, at, need);
      if to == buffer.Length {
        Ended();
        NothingWaits(hash[..], pending, fd);
        pending := pending[fd := []];
        return Data(u'.buffer);
      }
      PacksPush(fd, Packets(t), u'.buffer, Packets(buffer[to..]));
      PushData(fd, u'.buffer);
      PushMore(fd, buffer, to);
      return More;
    }

    /** The last part of `filter_data_`, for a connection without a record. */
    method Fresh(fd: int, buffer: array<Byte>) returns (reply: Reply)
      requires Valid() && Absent(hash[..], fd) && Fine(buffer[..])
      modifies this`queue, this`cap, this`head, this`tail, this`pending, hash, queue, buffer
      ensures Valid() && (queue == old(queue) || fresh(queue))
      ensures pending == old(pending)[fd := Rest(old(buffer[..]))]
      ensures Replied(reply, fd, Packets(old(buffer[..])), old(Contents()), Contents())
    {
      hide ReadHead, Packets, Rest, Fine, Masked, Represents, TableOk, Absent, MQ.Window, MQ.Length;
      assert buffer[0..] == buffer[..];
      var at, h := SkipBad(buffer, 0);
      ghost var t := buffer[at..];
      OneStep(t);
      if h.Short? || buffer.Length - at < h.off + h.len {
        SaveBegun(fd, buffer, at, h);
        return Reply.Nothing;
      }
      var from, to := at + h.off, at + h.off + h.len;
      assert t[h.off..h.off + h.len] == buffer[from..to] && t[h.off + h.len..] == buffer[to..];
      var _ := DecodeMask(buffer, from, h.len, h.key, 0);
      var payload := buffer[from..to];
      if to == buffer.Length {
        Ended();
        NothingWaits(hash[..], pending, fd);
        pending := pending[fd := []];
        return Data(payload);
      }
      PacksPush(fd, Packets(t), payload, Packets(buffer[to..]));
      PushData(fd, payload);
      PushMore(fd, buffer, to);
      return More;
    }

    /** `close_uncomplete` */
    method CloseUncomplete(fd: int)
      requires Valid()
      modifies this`pending, hash
      ensures Valid() && pending == old(pending)[fd := []]
    {
      var _ := FindUncomplete(fd);
    }

    /** `filter_data_` after the handshake: a piece of the stream of one connection. */
    method Filter(fd: int, buffer: array<Byte>) returns (reply: Reply)
      requires Valid() && buffer.Length > 0 && Fine(Waits(pending, fd) + buffer[..])
      modifies this`queue, this`cap, this`head, this`tail, this`pending, hash, queue, buffer
      ensures Valid() && (queue == old(queue) || fresh(queue))
      ensures
        var t := Waits(old(pending), fd) + old(buffer[..]);
        pending == old(pending)[fd := Rest(t)] && Replied(reply, fd, Packets(t), old(Contents()), Contents())
    {
      hide ReadHead, Packets, Rest, Fine, Masked, TableOk, Absent, MQ.Window, MQ.Length, Filled;
      ghost var p := Waits(pending, fd);
      var found := FindUncomplete(fd);
      RecordIs(found, p);
      assert buffer[0..] == buffer[..];
      if found.Some? {
        var u := found.value;
        if u.read < 0 {
          var header, at, h := FillHeader(u.header, buffer);
          if h.Short? {
            assert header + buffer[at..] == header;
            StillShort(u, header);
            Save(u.(header := header), header);
            return Reply.Nothing;
          }
          FilledNone(u, header);
          reply := Finish(fd, u.(size := h.len, key := h.key, buffer := [], read := 0, unmasked := 0), buffer, at,
            header);
        } else {
          reply := Finish(fd, u, buffer, 0, p);
        }
      } else {
        assert p + buffer[..] == buffer[0..];
        reply := Fresh(fd, buffer);
      }
    }
  }

  /** What the record of a connection says. */
  lemma RecordIs(u: Option<Uncomplete>, p: seq<Byte>)
    requires Represents(u, p)
    ensures u == None ==> p == []
    ensures u.Some? && u.value.read < 0 ==> ReadHead(p).Short? && u.value.header == p && u.value.read == -1
    ensures u.Some? && u.value.read >= 0 ==> Filled(u.value, p)
  {
  }

  lemma StillShort(u: Uncomplete, header: seq<Byte>)
    requires ReadHead(header).Short? && u.read == -1
    ensures Represents(Some(u.(header := header)), header)
    ensures Packets(header) == [] && Rest(header) == header
  {
  }

  lemma FilledNone(u: Uncomplete, header: seq<Byte>)
    requires ReadHead(header).Frame? && ReadHead(header).off == |header|
    ensures
      var h := ReadHead(header);
      Filled(u.(size := h.len, key := h.key, buffer := [], read := 0, unmasked := 0), header)
  {
    assert Masked(ReadHead(header).key, [], 0) == [];
  }

  /** The first loop of `filter_data_`: the head of a frame is completed byte by byte. */
  method FillHeader(header0: seq<Byte>, buffer: array<Byte>) returns (header: seq<Byte>, at: nat, h: Head)
    requires ReadHead(header0).Short? && Fine(header0 + buffer[..])
    ensures at <= buffer.Length && h == ReadHead(header) && |header| <= HEADERSIZE
    ensures
      var t0, t1 := header0 + buffer[..], header + buffer[at..];
      Packets(t1) == Packets(t0) && Rest(t1) == Rest(t0) && Fine(t1)
    ensures if h.Short? then at == buffer.Length else h.Frame? && h.off == |header|
  {
    hide ReadHead, Packets, Rest, Fine;
    header, at, h := header0, 0, Short;
    assert buffer[0..] == buffer[..];
    ShortLength(header);
    while at < buffer.Length && h.Short?
      invariant at <= buffer.Length && h == ReadHead(header) && |header| <= 14 && (h.Short? ==> |header| < 14)
      invariant
        var t0, t1 := header0 + buffer[..], header + buffer[at..];
        Packets(t1) == Packets(t0) && Rest(t1) == Rest(t0) && Fine(t1)
      invariant h.Short? || (h.Frame? && h.off == |header|)
    {
      ghost var t := header + buffer[at..];
      assert buffer[at..] == [buffer[at]] + buffer[at + 1..];
      OneMore(header, buffer[at], buffer[at + 1..]);
      header := header + [buffer[at]];
      assert t == header + buffer[at + 1..];
      at := at + 1;
      h := ReadHead(header);
      if h.Skip? {
        SkipBoth(header, buffer[at..]);
        header := header[WEBSOCKET_HEADER_LEN..];
        h := ReadHead(header);
      }
      ShortLength(header);
    }
  }

  /** The head of a frame has 14 bytes at most. */
  lemma ShortLength(s: seq<Byte>)
    ensures ReadHead(s).Short? ==> |s| < 14
  {
  }

  /** One more byte completes the head of a frame, or shows that its first two bytes are bad. */
  lemma OneMore(s: seq<Byte>, b: Byte, x: seq<Byte>)
    requires ReadHead(s).Short? && Fine(s + ([b] + x))
    ensures
      var h := ReadHead(s + [b]);
      (h.Frame? ==> h.off == |s| + 1) && (h.Skip? ==> |s| == 1) && !h.Close? && !h.Wrong?
  {
    hide ReadHead, Packets, Rest, Fine;
    var t := s + [b];
    assert t + x == s + ([b] + x);
    FinePrefix(t, x);
    OneStep(t);
    HeadGrows(s, b);
  }

  lemma HeadGrows(s: seq<Byte>, b: Byte)
    requires ReadHead(s).Short?
    ensures
      var h := ReadHead(s + [b]);
      (h.Frame? ==> h.off == |s| + 1) && (h.Skip? ==> |s| == 1)
  {
    var t := s + [b];
    if |s| >= 2 {
      assert t[0] == s[0] && t[1] == s[1];
    }
  }

  /** Two bad bytes, and what is behind them. */
  lemma SkipBoth(s: seq<Byte>, x: seq<Byte>)
    requires ReadHead(s).Skip? && |s| == 2
    ensures
      var t := s[WEBSOCKET_HEADER_LEN..];
      Packets(t + x) == Packets(s + x) && Rest(t + x) == Rest(s + x) && (Fine(t + x) <==> Fine(s + x)) &&
      ReadHead(t).Short?
  {
    SameStep(s, x);
    OneStep(s + x);
  }

  /** A record with more bytes of the payload. */
  function Grown(u: Uncomplete, x: seq<Byte>): Uncomplete
    requires u.key.Some? ==> |u.key.value| == WEBSOCKET_MASK_LEN
  {
    u.(buffer := u.buffer + Masked(u.key, x, if u.key == None then 0 else u.unmasked), read := u.read + |x|,
       unmasked := if u.key == None then u.unmasked else u.unmasked + |x|)
  }

  method Fill(u: Uncomplete, buffer: array<Byte>, at: nat, size: nat) returns (u': Uncomplete)
    requires at + size <= buffer.Length && (u.key.Some? ==> |u.key.value| == WEBSOCKET_MASK_LEN)
    modifies buffer
    ensures u' == Grown(u, old(buffer[at..at + size]))
    ensures buffer[at + size..] == old(buffer[at + size..])
  {
    hide Masked;
    var done := DecodeMask(buffer, at, size, u.key, u.unmasked);
    u' := u.(buffer := u.buffer + buffer[at..at + size], read := u.read + size, unmasked := done);
  }

  /** How the messages that a piece completes come out. */
  predicate Replied(reply: Reply, fd: int, bs: seq<seq<Byte>>, before: seq<Pack>, after: seq<Pack>) {
    match reply
    case Nothing => bs == [] && after == before
    case Data(bytes) => bs == [bytes] && after == before
    case More => bs != [] && after == before + Packs(fd, bs)
  }

  /** The head of a record, with more bytes behind. */
  lemma FilledHead(u: Uncomplete, p: seq<Byte>, x: seq<Byte>)
    requires Filled(u, p)
    ensures
      var h := ReadHead(p + x);
      h.Frame? && h.key == u.key && h.len == u.size && |p| == h.off + u.read && u.read <= u.size
  {
    HeadStays(p, x);
  }

  /** More bytes of the payload. */
  lemma FillMore(u: Uncomplete, p: seq<Byte>, x: seq<Byte>)
    requires Filled(u, p) && u.read >= 0 && u.read + |x| <= u.size
    ensures u.key.Some? ==> |u.key.value| == WEBSOCKET_MASK_LEN
    ensures
      var u' := Grown(u, x);
      Filled(u', p + x) && u'.id == u.id && u'.size == u.size && u'.read == u.read + |x| &&
      (u'.read < u'.size ==> Represents(Some(u'), p + x))
  {
    HeadStays(p, x);
    var h := ReadHead(p);
    assert (p + x)[h.off..] == p[h.off..] + x;
    hide ReadHead;
    MaskSplit(h.key, p[h.off..], x, 0);
  }

  /** A payload that is complete. */
  lemma FilledWhole(u: Uncomplete, p: seq<Byte>, x: seq<Byte>)
    requires Filled(u, p) && u.read == u.size
    ensures
      var s := p + x;
      Packets(s) == [u.buffer] + Packets(x) && Rest(s) == Rest(x) && (Fine(s) <==> Fine(x))
  {
    HeadStays(p, x);
    var h := ReadHead(p);
    assert p[h.off..h.off + h.len] == p[h.off..] && p[h.off + h.len..] + x == x;
    hide ReadHead, Packets, Rest, Fine, Masked;
    SameStep(p, x);
    OneStep(p + x);
  }

  lemma Ended()
    ensures Packets([]) == [] && Rest([]) == [] && Fine([])
  {
  }

  lemma ShortRecord(fd: int, p: seq<Byte>)
    requires ReadHead(p).Short?
    ensures Represents(Some(Uncomplete(fd, 0, [], p, -1, None, 0)), p)
  {
  }

  lemma OpenRecord(fd: int, p: seq<Byte>)
    requires ReadHead(p).Frame? && |p| < ReadHead(p).off + ReadHead(p).len
    ensures
      var h := ReadHead(p);
      var size := |p| - h.off;
      Represents(Some(Uncomplete(fd, h.len, Masked(h.key, p[h.off..], 0), [], size, h.key,
                                 if h.key == None then 0 else size)), p)
  {
  }
}