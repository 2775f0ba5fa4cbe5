/** An IPC endpoint as a value, and the transition system of threads sending and receiving on
    it. Each code segment between blocking points is one step. */
module Ipc {
  import opened Sequences
  import opened Options
  import opened WaitLists

  const QUEUE_LEN: nat := 8

  datatype Msg = Msg(selector: nat, caps: seq<nat>, words: seq<nat>)

  /** The ring slot `k` places after `head`. */
  function RingIndex(head: nat, k: nat): (i: nat)
    ensures i < QUEUE_LEN
  {
    (head + k) % QUEUE_LEN
  }

  /** Threads of type `T` wait in the two lists, longest waiting first. */
  datatype Endpoint<T> = Endpoint(
    used: bool, refs: nat,
    ring: seq<Msg>, head: nat, tail: nat, count: nat,
    waiters: seq<T>, senders: seq<T>)
  {
    predicate Shaped() {
      |ring| == QUEUE_LEN && head < QUEUE_LEN && tail == RingIndex(head, count)
    }

    /** The queued messages from `head` on. */
    function Contents(): (ms: seq<Msg>)
      requires Shaped()
      ensures |ms| == count
    {
      seq(count, k requires 0 <= k < count => ring[RingIndex(head, k)])
    }

    function Put(m: Msg): Endpoint<T>
      requires Shaped()
    {
      this.(ring := ring[tail := m], tail := (tail + 1) % QUEUE_LEN, count := count + 1)
    }

    function Take(): Endpoint<T>
      requires Shaped() && count > 0
    {
      this.(head := (head + 1) % QUEUE_LEN, count := count - 1)
    }
  }

  /** What one pass through a send or receive loop ends in. */
  datatype Reply<T> =
    | NoObject                              // the endpoint is gone
    | Again                                 // would block, and this thread must not
    | Wait                                  // blocked
    | Sent(woken: Option<T>)
    | Received(msg: Msg, woken: Option<T>)

  datatype Result<T> = Result(ep: Endpoint<T>, reply: Reply<T>)

  function SendAttempt<T>(e: Endpoint<T>, m: Msg, self: T, mayBlock: bool): Result<T>
    requires e.Shaped()
  {
    if !e.used then Result(e, NoObject)
    else if e.waiters != [] then
      Result(e.Put(m).(waiters := e.waiters[1..]), Sent(Some(e.waiters[0])))
    else if e.count < QUEUE_LEN then Result(e.Put(m), Sent(None))
    else if !mayBlock then Result(e, Again)
    else Result(e.(senders := e.senders + [self]), Wait)
  }

  function RecvAttempt<T>(e: Endpoint<T>, self: T, mayBlock: bool): Result<T>
    requires e.Shaped()
  {
    if !e.used then Result(e, NoObject)
    else if e.count > 0 then
      if e.senders != [] then
        Result(e.Take().(senders := e.senders[1..]), Received(e.ring[e.head], Some(e.senders[0])))
      else Result(e.Take(), Received(e.ring[e.head], None))
    else if !mayBlock then Result(e, Again)
    else Result(e.(waiters := e.waiters + [self]), Wait)
  }

  /** A blocked sender that wakes takes itself off the list and looks again. */
  function SendResume<T(==)>(e: Endpoint<T>, m: Msg, self: T, mayBlock: bool): Result<T>
    requires e.Shaped()
  {
    SendAttempt(e.(senders := Without(e.senders, self)), m, self, mayBlock)
  }

  function RecvResume<T(==)>(e: Endpoint<T>, self: T, mayBlock: bool): Result<T>
    requires e.Shaped()
  {
    RecvAttempt(e.(waiters := Without(e.waiters, self)), self, mayBlock)
  }

  /** A live endpoint is held once more. */
  function Ref<T>(e: Endpoint<T>): Endpoint<T> {
    if e.used then e.(refs := e.refs + 1) else e
  }

  function Unref<T>(e: Endpoint<T>): Endpoint<T> {
    if !e.used || e.refs == 0 then e
    else if e.refs > 1 then e.(refs := e.refs - 1)
    else e.(refs := 0, waiters := [], senders := [], used := false)
  }

  // ---- the ring -----------------------------------------------------------------------------

  lemma PutContents<T>(e: Endpoint<T>, m: Msg)
    requires e.Shaped() && e.count < QUEUE_LEN
    ensures e.Put(m).Shaped() && e.Put(m).Contents() == e.Contents() + [m]
  {
    PutShaped(e, m);
    RingApart(e.head, e.count);
    hide RingIndex;
    assert e.Put(m).Contents()[e.count] == m;
  }

  lemma PutShaped<T>(e: Endpoint<T>, m: Msg)
    requires e.Shaped()
    ensures e.Put(m).Shaped()
  {
    RingStep(e.head, e.count);
  }

  lemma TakeContents<T>(e: Endpoint<T>)
    requires e.Shaped() && e.count > 0
    ensures e.Take().Shaped()
    ensures e.Contents() == [e.ring[e.head]] + e.Take().Contents()
  {
    RingShift(e.head, (e.head + 1) % QUEUE_LEN);
    hide RingIndex;
  }

  lemma RingStep(head: nat, n: nat)
    ensures (RingIndex(head, n) + 1) % QUEUE_LEN == RingIndex(head, n + 1)
  {
  }

  lemma RingShift(head: nat, next: nat)
    requires next == (head + 1) % QUEUE_LEN
    ensures forall n: nat :: RingIndex(next, n) == RingIndex(head, n + 1)
    ensures head < QUEUE_LEN ==> RingIndex(head, 0) == head
  {
  }

  lemma RingApart(head: nat, n: nat)
    requires n < QUEUE_LEN
    ensures forall k: nat :: k < n ==> RingIndex(head, k) != RingIndex(head, n)
  {
  }
}
