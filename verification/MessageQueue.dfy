/** The data structures of skynet_mq.c below the scheduler: the ring of one service, and the linked list
    of queues that have work. Each method is one section under the lock. */
module MessageQueue {
  import opened Common

  const DEFAULT_QUEUE_SIZE := 64
  const MQ_OVERLOAD := 1024

  /** The entries of a ring of capacity `|ring|` from `head` on, `n` of them. */
  function Window<T>(ring: seq<T>, head: nat, n: nat): (r: seq<T>)
    requires head < |ring| && n <= |ring|
    ensures |r| == n
    ensures forall k :: 0 <= k < n ==> r[k] == ring[(head + k) % |ring|]
  {
    seq(n, k requires 0 <= k < n => ring[(head + k) % |ring|])
  }

  /** How many entries lie between `head` and `tail`. */
  function Length(head: nat, tail: nat, cap: nat): nat
    requires head < cap && tail < cap
  {
    if head <= tail then tail - head else tail + cap - head
  }

  /** Writing behind the window extends it by what is written. */
  lemma WindowPush<T>(ring: seq<T>, head: nat, n: nat, at: nat, x: T)
    requires head < |ring| && n < |ring| && at == (head + n) % |ring|
    ensures Window(ring[at := x], head, n + 1) == Window(ring, head, n) + [x]
  {
    var r := ring[at := x];
    forall k | 0 <= k <= n
      ensures Window(r, head, n + 1)[k] == (Window(ring, head, n) + [x])[k]
    {
      if k < n { Apart(|ring|, head, k, n); }
    }
  }

  /** Different places of a window are different places of the ring. */
  lemma Apart(cap: nat, head: nat, k: nat, n: nat)
    requires head < cap && k < n < cap
    ensures (head + k) % cap != (head + n) % cap
  {
    Wrap(cap, head + k);
    Wrap(cap, head + n);
  }

  lemma Wrap(cap: nat, x: nat)
    requires x < 2 * cap
    ensures x % cap == if x < cap then x else x - cap
  {
    if x >= cap { assert (x - cap) % cap == x - cap; }
  }

  lemma WindowPop<T>(ring: seq<T>, head: nat, n: nat, next: nat)
    requires head < |ring| && 0 < n <= |ring| && next == (head + 1) % |ring|
    ensures Window(ring, head, n) == [ring[head]] + Window(ring, next, n - 1)
  {
    forall k | 0 <= k < n
      ensures Window(ring, head, n)[k] == ([ring[head]] + Window(ring, next, n - 1))[k]
    {
      if k > 0 { Shifted(|ring|, head, k); } else { Wrap(|ring|, head); }
    }
  }

  lemma Shifted(cap: nat, head: nat, k: nat)
    requires head < cap && 0 < k < cap
    ensures (head + k) % cap == ((head + 1) % cap + (k - 1)) % cap
  {
    Wrap(cap, head + 1);
    Wrap(cap, head + k);
    Wrap(cap, (head + 1) % cap + (k - 1));
  }

  lemma WindowStart<T>(ring: seq<T>, n: nat)
    requires n <= |ring| && ring != []
    ensures Window(ring, 0, n) == ring[..n]
  {
    forall k | 0 <= k < n
      ensures Window(ring, 0, n)[k] == ring[k]
    {
      Wrap(|ring|, k);
    }
  }

  lemma NoDoubling(x: int)
    ensures x == x * Pow(2, 0)
  {
  }

  lemma Doubling(x: int, k: nat)
    ensures x * Pow(2, k) * 2 == x * Pow(2, k + 1)
  {
  }

  /** `struct message_queue` */
  class Ring<T(0)> {
    var queue: array<T>
    var cap: int
    var head: int
    var tail: int
    var release: bool
    var inGlobal: bool
    var overload: int
    var threshold: int

    ghost predicate Valid()
      reads this
    {
      cap == queue.Length && 0 <= head < cap && 0 <= tail < cap && threshold >= MQ_OVERLOAD
    }

    /** What the queue holds, first in first. */
    ghost function Contents(): (r: seq<T>)
      requires Valid()
      reads this, queue
    {
      Window(queue[..], head, Length(head, tail, cap))
    }

    /** `skynet_mq_create`; the flag keeps the queue off the global list until its service is ready. */
    constructor ()
      ensures Valid() && fresh(queue)
      ensures Contents() == [] && inGlobal && !release && overload == 0 && threshold == 1024
    {
      queue := new T[DEFAULT_QUEUE_SIZE];
      cap := DEFAULT_QUEUE_SIZE;
      head, tail := 0, 0;
      release, inGlobal := false, true;
      overload, threshold := 0, MQ_OVERLOAD;
    }

    /** `skynet_mq_length` */
    method MqLength() returns (n: int)
      requires Valid()
      ensures n == |Contents()|
    {
      if head <= tail { return tail - head; }
      return tail + cap - head;
    }

    /** `expand_queue`: the full ring, whose ends have met, is unrolled into one twice as large. */
    method ExpandQueue()
      requires Valid() && head == tail
      modifies this`queue, this`cap, this`head, this`tail
      ensures Valid() && fresh(queue)
      ensures Contents() == Window(old(queue[..]), old(head), old(cap))
    {
      var larger := new T[cap * 2];
      var i := 0;
      while i < cap
        invariant 0 <= i <= cap
        invariant unchanged(this) && queue[..] == old(queue[..])
        invariant forall k :: 0 <= k < i ==> larger[k] == Window(queue[..], head, cap)[k]
      {
        larger[i] := queue[(head + i) % cap];
        i := i + 1;
      }
      head := 0;
      tail := cap;
      cap := cap * 2;
      queue := larger;
      WindowStart(queue[..], cap / 2);
    }

    /** `skynet_mq_push`; `schedule` tells that the queue has to go to the global list. */
    method MqPush(message: T) returns (schedule: bool)
      requires Valid()
      modifies this`queue, this`cap, this`head, this`tail, this`inGlobal, queue
      ensures Valid() && (queue == old(queue) || fresh(queue))
      ensures Contents() == old(Contents()) + [message]
      ensures schedule == !old(inGlobal) && inGlobal
    {
      ghost var n := Length(head, tail, cap);
      Wrap(cap, head + n);
      WindowPush(queue[..], head, n, tail, message);
      queue[tail] := message;
      tail := tail + 1;
      if tail >= cap { tail := 0; }
      if head == tail {
        ExpandQueue();
      }
      schedule := !inGlobal;
      inGlobal := true;
    }

    /** `skynet_mq_pop`. An empty queue is no longer scheduled. The threshold for the overload warning
        is doubled until it covers the length. */
    method MqPop() returns (message: Option<T>)
      requires Valid()
      modifies this`head, this`inGlobal, this`overload, this`threshold
      ensures Valid()
      ensures old(Contents()) == [] ==> message == None && Contents() == [] && !inGlobal
      ensures old(Contents()) == [] ==> threshold == 1024 && overload == old(overload)
      ensures old(Contents()) != [] ==> inGlobal == old(inGlobal)
      ensures old(Contents()) != [] ==> message.Some? && old(Contents()) == [message.value] + Contents()
      ensures old(Contents()) != [] ==>
        threshold >= |Contents()| && (threshold == old(threshold) || threshold < 2 * |Contents()|) &&
        exists k: nat :: threshold == old(threshold) * Pow(2, k)
      ensures old(Contents()) != [] ==>
        overload == if |Contents()| > old(threshold) then |Contents()| else old(overload)
    {
      if head != tail {
        ghost var n := Length(head, tail, cap);
        Wrap(cap, head + 1);
        WindowPop(queue[..], head, n, (head + 1) % cap);
        message := Some(queue[head]);
        head := head + 1;
        if head >= cap { head := 0; }
        var length := tail - head;
        if length < 0 { length := length + cap; }
        assert length == n - 1 == Length(head, tail, cap);
        ghost var k: nat := 0;
        NoDoubling(threshold);
        while length > threshold
          invariant threshold >= MQ_OVERLOAD && threshold == old(threshold) * Pow(2, k)
          invariant threshold == old(threshold) || threshold < 2 * length
          invariant Valid() && unchanged(this`queue) && unchanged(queue) && head == (old(head) + 1) % cap
          invariant inGlobal == old(inGlobal) && tail == old(tail) && cap == old(cap)
          invariant threshold == old(threshold) || overload == length > old(threshold)
          invariant threshold == old(threshold) ==> overload == old(overload)
          decreases length - threshold
        {
          Doubling(old(threshold), k);
          overload := length;
          threshold := threshold * 2;
          k := k + 1;
        }
      } else {
        message := None;
        threshold := MQ_OVERLOAD;
        inGlobal := false;
      }
    }
  }

  /** The link of a queue in the global list. */
  class Link {
    var next: Link?
    constructor ()
      ensures next == null
    {
      next := null;
    }
  }

  /** `struct global_queue` */
  class GlobalQueue {
    var head: Link?
    var tail: Link?
    ghost var links: seq<Link>

    ghost predicate Valid()
      reads this, links
    {
      (forall i, j :: 0 <= i < j < |links| ==> links[i] != links[j]) &&
      (if links == [] then head == null && tail == null
       else head == links[0] && tail == links[|links| - 1] && links[|links| - 1].next == null) &&
      forall k :: 0 <= k < |links| - 1 ==> links[k].next == links[k + 1]
    }

    /** `skynet_mq_init` */
    constructor ()
      ensures Valid() && links == []
    {
      head, tail, links := null, null, [];
    }

    /** `skynet_globalmq_push`. That `queue` is not linked is more than the assertion of the source says:
        the last link of the list has no `next` either. */
    method Push(queue: Link)
      requires Valid() && queue !in links && queue.next == null
      modifies this, tail
      ensures Valid() && links == old(links) + [queue]
    {
      if tail != null {
        tail.next := queue;
        tail := queue;
      } else {
        head, tail := queue, queue;
      }
      links := links + [queue];
    }

    /** `skynet_globalmq_pop`. The queue leaves without a `next`, as the next push asserts. */
    method Pop() returns (mq: Link?)
      requires Valid()
      modifies this, head
      ensures Valid()
      ensures old(links) == [] ==> mq == null && links == []
      ensures old(links) != [] ==> mq != null && old(links) == [mq] + links && mq.next == null && mq !in links
    {
      mq := head;
      assert |links| > 1 ==> links[0].next == links[1];
      if mq != null {
        head := mq.next;
        if head == null {
          assert mq == tail;
          tail := null;
        }
        mq.next := null;
        links := links[1..];
      }
    }
  }
}
