/** What every step of the send path keeps: whole messages on the wire, nothing lost or doubled, the
    books of `wb_size` and `sending` balanced, and the write event on while something waits. */
module SendInvariant {
  import opened Common
  import opened SendPath

  function Flat(ms: seq<Message>): seq<Byte> {
    if ms == [] then [] else Flat(ms[..|ms| - 1]) + ms[|ms| - 1].data
  }

  lemma FlatPush(ms: seq<Message>, m: Message)
    ensures Flat(ms + [m]) == Flat(ms) + m.data
  {
    assert (ms + [m])[..|ms|] == ms;
  }

  function Total(list: seq<Buffer>): nat {
    if list == [] then 0 else Rest(list[0]) + Total(list[1..])
  }

  lemma {:induction false} TotalPush(list: seq<Buffer>, b: Buffer)
    ensures Total(list + [b]) == Total(list) + Rest(b)
  {
    if list != [] {
      assert (list + [b])[1..] == list[1..] + [b];
      TotalPush(list[1..], b);
    }
  }

  lemma TotalCons(list: seq<Buffer>, b: Buffer)
    ensures Total([b] + list) == Rest(b) + Total(list)
  {
    assert ([b] + list)[1..] == list;
  }

  function Messages(list: seq<Buffer>): (ms: seq<Message>)
    ensures |ms| == |list| && forall k :: 0 <= k < |ms| ==> ms[k] == list[k].m
  {
    seq(|list|, k requires 0 <= k < |list| => list[k].m)
  }

  /** What a thread has asked for and neither written nor handed over. */
  function Hand(w: Writer): Option<Message> {
    match w
    case Ready => None
    case Checking(m, _, _) => Some(m)
    case Locking(m) => Some(m)
    case Writing(m) => Some(m)
    case Storing(m, _) => Some(m)
    case Arming => None
    case Unlocking(back) => back
    case Counting(m) => Some(m)
    case Posting(m) => Some(m)
  }

  function One(b: bool): nat { if b then 1 else 0 }

  /** How many threads have `x` in hand. */
  function Hands(ws: seq<Writer>, x: Message): nat {
    if ws == [] then 0 else Hands(ws[..|ws| - 1], x) + One(Hand(ws[|ws| - 1]) == Some(x))
  }

  lemma {:induction false} HandsSet(ws: seq<Writer>, i: nat, w: Writer, x: Message)
    requires i < |ws|
    ensures Hands(ws[i := w], x) == Hands(ws, x) - One(Hand(ws[i]) == Some(x)) + One(Hand(w) == Some(x))
  {
    var k := |ws| - 1;
    if i < k {
      assert ws[i := w][..k] == ws[..k][i := w];
      HandsSet(ws[..k], i, w, x);
    } else {
      assert ws[i := w][..k] == ws[..k];
    }
  }

  lemma HandsAfter(ws: seq<Writer>, i: nat, w: Writer)
    requires i < |ws|
    ensures forall x :: Hands(ws[i := w], x) == Hands(ws, x) - One(Hand(ws[i]) == Some(x)) + One(Hand(w) == Some(x))
  {
    forall x
      ensures Hands(ws[i := w], x) == Hands(ws, x) - One(Hand(ws[i]) == Some(x)) + One(Hand(w) == Some(x))
    {
      HandsSet(ws, i, w, x);
    }
  }

  /** Threads that have counted a request that is not in the pipe yet. */
  function Postings(ws: seq<Writer>): nat {
    if ws == [] then 0 else Postings(ws[..|ws| - 1]) + if ws[|ws| - 1].Posting? then 1 else 0
  }

  lemma {:induction false} PostingsSet(ws: seq<Writer>, i: nat, w: Writer)
    requires i < |ws|
    ensures Postings(ws[i := w]) ==
      Postings(ws) - (if ws[i].Posting? then 1 else 0) + (if w.Posting? then 1 else 0)
  {
    var k := |ws| - 1;
    if i < k {
      assert ws[i := w][..k] == ws[..k][i := w];
      PostingsSet(ws[..k], i, w);
    } else {
      assert ws[i := w][..k] == ws[..k];
    }
  }

  predicate Locked(w: Writer) {
    (w.Checking? && w.locked) || w.Writing? || w.Storing? || w.Arming? || w.Unlocking?
  }

  /** The lock is with whoever is in a locked section. */
  predicate LockOk(s: State) {
    (forall i :: 0 <= i < |s.writers| ==> (Locked(s.writers[i]) <==> s.lock == ByWriter(i))) &&
    (s.lock.ByPoller? <==> !s.poller.Polling? && !s.poller.Noting?) &&
    (s.lock.ByWriter? ==> s.lock.i < |s.writers|) &&
    forall i :: 0 <= i < |s.writers| && s.writers[i].Checking? ==> s.writers[i].k <= 3
  }

  predicate Fresh(list: seq<Buffer>) { forall k :: 0 <= k < |list| ==> list[k].off == 0 }

  predicate Fits(list: seq<Buffer>) {
    list != [] ==> Fresh(list[1..]) && list[0].off <= |list[0].m.data|
  }

  /** The thread that holds the lock. */
  function Holder(s: State): Writer {
    if s.lock.ByWriter? && s.lock.i < |s.writers| then s.writers[s.lock.i] else Ready
  }

  /** At most one message is partly written, and where it can be. */
  predicate ListsOk(s: State) {
    Fits(s.high) && Fits(s.low) &&
    (!s.poller.Low? && !s.poller.Raising? ==> Fresh(s.low)) &&
    (s.dw.Some? ==> Fresh(s.high) && s.dw.value.off <= |s.dw.value.m.data|) &&
    (s.poller.Low? || s.poller.Raising? ==> s.high == []) &&
    (s.poller.High? || s.poller.Low? || s.poller.Raising? ==> s.dw == None)
  }

  /** What the thread with the lock has found out stays true while it has the lock. */
  predicate HolderOk(s: State) {
    match Holder(s)
    case Checking(_, k, _) => (k >= 1 ==> Fresh(s.high)) && (k >= 3 ==> s.dw == None)
    case Writing(_) => Fresh(s.high) && s.dw == None
    case Storing(m, n) => Fresh(s.high) && s.dw == None && n <= |m.data|
    case Arming => s.dw.Some?
    case Unlocking(_) => true
    case Ready => true
    case Locking(_) => true
    case Counting(_) => true
    case Posting(_) => true
  }

  /** The part of the current message that is on the wire already. */
  function Begun(s: State): seq<Byte> {
    var w := Holder(s);
    if w.Storing? && w.n <= |w.m.data| then w.m.data[..w.n]
    else if s.dw.Some? then Head(s.dw.value)
    else if Uncomplete(s.high) then Head(s.high[0])
    else if s.low != [] then Head(s.low[0])
    else []
  }

  function Head(b: Buffer): seq<Byte> { if b.off <= |b.m.data| then b.m.data[..b.off] else [] }

  /** The bytes written are whole messages end to end, and the beginning of one more. */
  predicate WireOk(s: State) { s.wire == Flat(s.done) + Begun(s) }

  predicate SizeOk(s: State) { s.size == Total(s.high) + Total(s.low) }

  predicate SendingOk(s: State) {
    s.sending == |s.pipe| + Postings(s.writers) + if s.poller.Noting? then 1 else 0
  }

  predicate ArmedOk(s: State) {
    (s.high != [] || s.low != [] ==> s.armed) && (s.dw.Some? ==> s.armed || Holder(s).Arming?)
  }

  function Times(ms: seq<Message>, x: Message): nat { multiset(ms)[x] }

  function TimesIn(list: seq<Buffer>, x: Message): nat { multiset(Messages(list))[x] }

  lemma TimesPush(ms: seq<Message>, m: Message)
    ensures forall x :: Times(ms + [m], x) == Times(ms, x) + One(x == m)
  {
  }

  lemma TimesCons(ms: seq<Message>, m: Message)
    ensures forall x :: Times([m] + ms, x) == Times(ms, x) + One(x == m)
  {
  }

  lemma TimesInPush(list: seq<Buffer>, b: Buffer)
    ensures forall x :: TimesIn(list + [b], x) == TimesIn(list, x) + One(x == b.m)
  {
    assert Messages(list + [b]) == Messages(list) + [b.m];
    TimesPush(Messages(list), b.m);
  }

  lemma TimesInCons(list: seq<Buffer>, b: Buffer)
    ensures forall x :: TimesIn([b] + list, x) == TimesIn(list, x) + One(x == b.m)
  {
    assert Messages([b] + list) == [b.m] + Messages(list);
    TimesCons(Messages(list), b.m);
  }

  /** In how many places `x` is. */
  function Places(s: State, x: Message): nat {
    Times(s.done, x) + One(s.dw.Some? && s.dw.value.m == x) + TimesIn(s.high, x) + TimesIn(s.low, x) +
    Times(s.pipe, x) + Hands(s.writers, x)
  }

  /** Every message asked for is in one place. */
  ghost predicate Conserved(s: State) { forall x :: Times(s.asked, x) == Places(s, x) }

  /** Who is where, and what is on the wire. */
  predicate Flow(s: State) { LockOk(s) && ListsOk(s) && HolderOk(s) && WireOk(s) }

  /** What is counted. */
  ghost predicate Books(s: State) { SizeOk(s) && SendingOk(s) && ArmedOk(s) && Conserved(s) }

  ghost predicate Inv(s: State) { Flow(s) && Books(s) }
}
