/** How skynet sends on one connected TCP socket: worker threads that write directly compete with the
    socket thread of socket_server.c, which drains two priority lists and takes requests from a pipe.
    One step is one read or write of shared data, one lock operation or one system call. */
module SendPath {
  import opened Common

  /** What thread `sender` asks to be sent, its `no`-th such request. */
  datatype Message = Message(sender: nat, no: nat, low: bool, data: seq<Byte>)

  /** `struct write_buffer`: a message of which `off` bytes have been written. */
  datatype Buffer = Buffer(m: Message, off: nat)

  /** A thread in `socket_server_send`. `Checking` is `can_direct_write`, which reads the two list heads,
      the direct write buffer and the count of requests one after the other, first without and then with the lock. */
  datatype Writer =
    | Ready
    | Checking(m: Message, k: nat, locked: bool)
    | Locking(m: Message)
    | Writing(m: Message)
    | Storing(m: Message, n: nat)
    | Arming
    | Unlocking(back: Option<Message>)
    | Counting(m: Message)
    | Posting(m: Message)

  /** The socket thread: waiting for an event, about to count a request as done, or in `send_buffer`. */
  datatype Poller = Polling | Noting | Merging | High | Low | Raising | Releasing

  datatype Lock = Free | ByWriter(i: nat) | ByPoller

  /** `wire` is everything written, `done` the messages written completely and `asked` all requests. */
  datatype State = State(
    high: seq<Buffer>, low: seq<Buffer>, size: int, dw: Option<Buffer>, sending: int,
    armed: bool, lock: Lock, pipe: seq<Message>, writers: seq<Writer>, poller: Poller,
    wire: seq<Byte>, done: seq<Message>, asked: seq<Message>)

  function Init(n: nat): State {
    State([], [], 0, None, 0, false, Free, [], seq(n, _ => Ready), Polling, [], [], [])
  }

  /** What `write` returns. */
  datatype Wrote = Bytes(n: nat) | Again | Interrupted

  datatype Action =
    | Ask(i: nat, low: bool, data: seq<Byte>)
    | Go(i: nat, n: nat)
    | Control
    | Event
    | Continue(r: Wrote)

  datatype Outcome = Next(state: State) | Blocked | Fault

  const SENDING_MAX := 0xffff

  function Rest(b: Buffer): nat { if b.off <= |b.m.data| then |b.m.data| - b.off else 0 }

  /** `list_uncomplete` */
  predicate Uncomplete(list: seq<Buffer>) { list != [] && list[0].off != 0 }

  function Move(s: State, i: nat, w: Writer): State
    requires i < |s.writers|
  {
    s.(writers := s.writers[i := w])
  }

  /** Read `k` of `can_direct_write`. */
  predicate Permits(s: State, k: nat) {
    if k == 0 then s.high == []
    else if k == 1 then s.low == []
    else if k == 2 then s.dw == None
    else s.sending == 0
  }

  function Count(asked: seq<Message>, i: nat): nat {
    if asked == [] then 0 else Count(asked[..|asked| - 1], i) + if asked[|asked| - 1].sender == i then 1 else 0
  }

  function WriterStep(s: State, i: nat, n: nat): Outcome
    requires i < |s.writers|
  {
    match s.writers[i]
    case Ready => Blocked
    case Checking(m, k, locked) =>
      if !Permits(s, k) then Next(Move(s, i, if locked then Unlocking(Some(m)) else Counting(m)))
      else if k < 3 then Next(Move(s, i, Checking(m, k + 1, locked)))
      else Next(Move(s, i, if locked then Writing(m) else Locking(m)))
    case Locking(m) =>
      if s.lock.Free? then Next(Move(s.(lock := ByWriter(i)), i, Checking(m, 0, true)))
      else Next(Move(s, i, Counting(m)))
    case Writing(m) =>
      // n is 0 if write fails
      if n > |m.data| then Blocked
      else if n == |m.data| then
        Next(Move(s.(wire := s.wire + m.data, done := s.done + [m]), i, Unlocking(None)))
      else Next(Move(s.(wire := s.wire + m.data[..n]), i, Storing(m, n)))
    case Storing(m, n) =>
      if s.dw != None then Fault else Next(Move(s.(dw := Some(Buffer(m, n))), i, Arming))
    case Arming => Next(Move(s.(armed := true), i, Unlocking(None)))
    case Unlocking(back) =>
      if s.lock != ByWriter(i) then Fault
      else Next(Move(s.(lock := Free), i, if back.Some? then Counting(back.value) else Ready))
    case Counting(m) =>
      // inc_sending_ref
      if s.sending == SENDING_MAX then Blocked else Next(Move(s.(sending := s.sending + 1), i, Posting(m)))
    case Posting(m) => Next(Move(s.(pipe := s.pipe + [m]), i, Ready))
  }

  /** `send_socket`: to the high list if nothing waits, else to the list of the priority. */
  function SendSocket(s: State, m: Message): State {
    var b := Buffer(m, 0);
    var t := s.(size := s.size + |m.data|);
    if s.high == [] && s.low == [] then t.(high := s.high + [b], armed := true)
    else if m.low then t.(low := s.low + [b])
    else t.(high := s.high + [b])
  }

  /** The unfinished direct write goes before the high list. */
  function Merge(s: State): State {
    match s.dw
    case None => s
    case Some(b) => s.(high := [b] + s.high, size := s.size + Rest(b), dw := None)
  }

  /** One `write` of the first buffer of a list: the list that remains, and whether to go on with it. */
  function WriteFirst(list: seq<Buffer>, n: nat): seq<Buffer>
    requires list != [] && n <= Rest(list[0])
  {
    if n == Rest(list[0]) then list[1..] else [list[0].(off := list[0].off + n)] + list[1..]
  }

  function Chunk(b: Buffer, n: nat): seq<Byte>
    requires n <= Rest(b)
  {
    if b.off <= |b.m.data| then b.m.data[b.off..b.off + n] else []
  }

  /** The loop of `send_list_tcp` on the high list, then the choice of the next step of `send_buffer_`. */
  function HighStep(s: State, r: Wrote): Outcome {
    if s.high == [] then
      if s.low != [] then Next(s.(poller := Low)) else Finish(s)
    else
      match r
      case Interrupted => Next(s)
      case Again => Next(s.(poller := Releasing))
      case Bytes(n) =>
        var b := s.high[0];
        if n > Rest(b) then Blocked
        else
          var t := s.(high := WriteFirst(s.high, n), wire := s.wire + Chunk(b, n), size := s.size - n);
          Next(if n == Rest(b) then t.(done := s.done + [b.m]) else t.(poller := Releasing))
  }

  function LowStep(s: State, r: Wrote): Outcome {
    if s.low == [] then Finish(s)
    else
      match r
      case Interrupted => Next(s)
      case Again => Next(s.(poller := Raising))
      case Bytes(n) =>
        var b := s.low[0];
        if n > Rest(b) then Blocked
        else
          var t := s.(low := WriteFirst(s.low, n), wire := s.wire + Chunk(b, n), size := s.size - n);
          Next(if n == Rest(b) then t.(done := s.done + [b.m]) else t.(poller := Raising))
  }

  /** Step 4 of `send_buffer_` with its assertion. */
  function Finish(s: State): Outcome {
    if s.high != [] || s.low != [] || s.size != 0 then Fault
    else Next(s.(armed := false, poller := Releasing))
  }

  /** `raise_uncomplete` with its assertion. */
  function Raise(s: State): Outcome {
    if !Uncomplete(s.low) then Next(s.(poller := Releasing))
    else if s.high != [] then Fault
    else Next(s.(low := s.low[1..], high := [s.low[0]], poller := Releasing))
  }

  function PollerStep(s: State, r: Wrote): Outcome {
    match s.poller
    case Polling => Blocked
    case Noting =>
      // dec_sending_ref
      if s.sending == 0 then Fault else Next(s.(sending := s.sending - 1, poller := Polling))
    case Merging => if Uncomplete(s.low) then Fault else Next(Merge(s).(poller := High))
    case High => HighStep(s, r)
    case Low => LowStep(s, r)
    case Raising => Raise(s)
    case Releasing => if s.lock != ByPoller then Fault else Next(s.(lock := Free, poller := Polling))
  }

  function Step(s: State, a: Action): Outcome {
    match a
    case Ask(i, low, data) =>
      if i >= |s.writers| || !s.writers[i].Ready? then Blocked
      else
        var m := Message(i, Count(s.asked, i), low, data);
        Next(Move(s.(asked := s.asked + [m]), i, if low then Counting(m) else Checking(m, 0, false)))
    case Go(i, n) => if i < |s.writers| then WriterStep(s, i, n) else Blocked
    case Control =>
      if s.poller.Polling? && s.pipe != []
      then Next(SendSocket(s.(pipe := s.pipe[1..], poller := Noting), s.pipe[0]))
      else Blocked
    case Event =>
      if s.poller.Polling? && s.armed && s.lock.Free? then Next(s.(lock := ByPoller, poller := Merging)) else Blocked
    case Continue(r) => PollerStep(s, r)
  }
}
