/** The endpoint object: a ring of message slots and two lists chained through the blocked
    threads, all updated in place. Each method is one pass of a send or receive loop. */
module Endpoints {
  import opened Sequences
  import opened Options
  import opened WaitLists
  import opened Ipc

  class EndpointObject {
    var used: bool
    var refs: nat
    const queue: array<Msg>
    var head: nat
    var tail: nat
    var count: nat
    var waiters: Thread?
    var senders: Thread?
    ghost var waiting: seq<Thread>
    ghost var sending: seq<Thread>

    ghost predicate Valid()
      reads this, queue, waiting`waitNext, sending`waitNext
      ensures Valid() ==> Distinct(waiting) && Distinct(sending)
      ensures Valid() ==> (waiters == null <==> waiting == []) && (senders == null <==> sending == [])
    {
      && queue.Length == QUEUE_LEN
      && View().Shaped()
      && Chain(waiters, waiting) && Chain(senders, sending)
      && NoneIn(waiting, sending)
    }

    ghost function View(): Endpoint<Thread>
      reads this, queue
    {
      Endpoint(used, refs, queue[..], head, tail, count, waiting, sending)
    }

    constructor ()
      ensures Valid() && fresh(queue)
      ensures used && refs == 1 && count == 0 && waiting == [] && sending == []
    {
      queue := new Msg[QUEUE_LEN](i => Msg(0, [], []));
      used, refs, head, tail, count := true, 1, 0, 0, 0;
      waiters, senders, waiting, sending := null, null, [], [];
    }

    method Unblock(t: Thread)
      modifies t`state
      ensures t.state == if old(t.state) == Blocked then Runnable else old(t.state)
    {
      if t.state == Blocked {
        t.state := Runnable;
      }
    }

    method Enqueue(m: Msg)
      requires queue.Length == QUEUE_LEN && View().Shaped()
      modifies queue, this`tail, this`count
      ensures View() == old(View()).Put(m) && View().Shaped()
    {
      PutShaped(View(), m);
      queue[tail] := m;
      tail := (tail + 1) % QUEUE_LEN;
      count := count + 1;
    }

    // ---- the two lists, one at a time -----------------------------------------------------

    method PopWaiter() returns (t: Thread?)
      requires Valid()
      modifies this`waiters, this`waiting, waiting`waitNext
      ensures Valid() && View() == old(View()).(waiters := waiting)
      ensures t == At(old(waiting), 0)
      ensures waiting == if t == null then [] else old(waiting)[1..]
    {
      hide RingIndex, Distinct, Chain, Linked, Links, NoneIn;
      var first;
      ghost var links := Links(sending);
      ChainIsLinked(senders, sending);
      Apart(waiting, sending);
      t, first := WaiterPop(waiters, waiting);
      assert Links(sending) == links;
      ChainIsLinked(senders, sending);
      ghost var rest := if t == null then [] else waiting[1..];
      NoneInWithin(waiting, sending, rest, sending);
      waiters := first;
      waiting := rest;
    }

    method PopSender() returns (t: Thread?)
      requires Valid()
      modifies this`senders, this`sending, sending`waitNext
      ensures Valid() && View() == old(View()).(senders := sending)
      ensures t == At(old(sending), 0)
      ensures sending == if t == null then [] else old(sending)[1..]
    {
      hide RingIndex, Distinct, Chain, Linked, Links, NoneIn;
      var first;
      ghost var links := Links(waiting);
      ChainIsLinked(waiters, waiting);
      Apart(waiting, sending);
      t, first := WaiterPop(senders, sending);
      assert Links(waiting) == links;
      ChainIsLinked(waiters, waiting);
      ghost var rest := if t == null then [] else sending[1..];
      NoneInWithin(waiting, sending, waiting, rest);
      senders := first;
      sending := rest;
    }

    method AddWaiter(self: Thread)
      requires Valid() && self !in waiting && self !in sending
      modifies this`waiters, this`waiting, waiting`waitNext, self
      ensures Valid() && View() == old(View()).(waiters := old(waiting) + [self])
      ensures self.state == Blocked
    {
      hide RingIndex, Distinct, Chain, Linked, Links, NoneIn;
      ghost var links := Links(sending);
      ChainIsLinked(senders, sending);
      Apart(waiting, sending);
      NoneInAdd(waiting, sending, self);
      var first := WaiterAdd(waiters, self, waiting);
      assert Links(sending) == links;
      ChainIsLinked(senders, sending);
      waiters := first;
      waiting := waiting + [self];
      self.state := Blocked;
    }

    method AddSender(self: Thread)
      requires Valid() && self !in waiting && self !in sending
      modifies this`senders, this`sending, sending`waitNext, self
      ensures Valid() && View() == old(View()).(senders := old(sending) + [self])
      ensures self.state == Blocked
    {
      hide RingIndex, Distinct, Chain, Linked, Links, NoneIn;
      ghost var links := Links(waiting);
      ChainIsLinked(waiters, waiting);
      Apart(waiting, sending);
      NoneInAdd(waiting, sending, self);
      var first := WaiterAdd(senders, self, sending);
      assert Links(waiting) == links;
      ChainIsLinked(waiters, waiting);
      senders := first;
      sending := sending + [self];
      self.state := Blocked;
    }

    method RemoveWaiter(self: Thread)
      requires Valid()
      modifies this`waiters, this`waiting, waiting`waitNext
      ensures Valid() && View() == old(View()).(waiters := Without(old(waiting), self))
      ensures self !in waiting && sending == old(sending)
      ensures forall t :: t in waiting ==> t in old(waiting)
    {
      hide RingIndex, Distinct, Chain, Linked, Links, NoneIn, Without;
      WithoutSubset(waiting, self);
      if waiters != null {
        NoneInWithin(waiting, sending, Without(waiting, self), sending);
        ghost var links := Links(sending);
        ChainIsLinked(senders, sending);
        Apart(waiting, sending);
        var first := WaiterRemove(waiters, self, waiting);
        assert Links(sending) == links;
        ChainIsLinked(senders, sending);
        waiters := first;
        waiting := Without(waiting, self);
      }
    }

    method RemoveSender(self: Thread)
      requires Valid()
      modifies this`senders, this`sending, sending`waitNext
      ensures Valid() && View() == old(View()).(senders := Without(old(sending), self))
      ensures self !in sending && waiting == old(waiting)
      ensures forall t :: t in sending ==> t in old(sending)
    {
      hide RingIndex, Distinct, Chain, Linked, Links, NoneIn, Without;
      WithoutSubset(sending, self);
      if senders != null {
        NoneInWithin(waiting, sending, waiting, Without(sending, self));
        ghost var links := Links(waiting);
        ChainIsLinked(waiters, waiting);
        Apart(waiting, sending);
        var first := WaiterRemove(senders, self, sending);
        assert Links(waiting) == links;
        ChainIsLinked(waiters, waiting);
        senders := first;
        sending := Without(sending, self);
      }
    }

    // ---- one pass of each loop --------------------------------------------------------------

    method SendPass(m: Msg, self: Thread, mayBlock: bool) returns (reply: Reply<Thread>)
      requires Valid() && self !in waiting && self !in sending
      modifies this, queue, waiting, sending, self
      ensures Valid()
      ensures var r := SendAttempt(old(View()), m, self, mayBlock); View() == r.ep && reply == r.reply
      ensures reply.Sent? && reply.woken.Some? ==> reply.woken.value.state != Blocked
      ensures reply.Wait? ==> self.state == Blocked
    {
      hide RingIndex, Distinct, Chain, Linked, Links, NoneIn;
      if !used {
        return NoObject;
      }
      var receiver := PopWaiter();
      if receiver != null {
        Enqueue(m);
        Unblock(receiver);
        return Sent(Some(receiver));
      }
      if count < QUEUE_LEN {
        Enqueue(m);
        return Sent(None);
      }
      if !mayBlock {
        return Again;
      }
      AddSender(self);
      return Wait;
    }

    method RecvPass(self: Thread, mayBlock: bool) returns (reply: Reply<Thread>)
      requires Valid() && self !in waiting && self !in sending
      modifies this, waiting, sending, self
      ensures Valid()
      ensures var r := RecvAttempt(old(View()), self, mayBlock); View() == r.ep && reply == r.reply
      ensures reply.Received? && reply.woken.Some? ==> reply.woken.value.state != Blocked
      ensures reply.Wait? ==> self.state == Blocked
    {
      hide RingIndex, Distinct, Chain, Linked, Links, NoneIn;
      if !used {
        return NoObject;
      }
      if count > 0 {
        var msg := Dequeue();
        var sender := PopSender();
        if sender == null {
          return Received(msg, None);
        }
        Unblock(sender);
        return Received(msg, Some(sender));
      }
      if !mayBlock {
        return Again;
      }
      AddWaiter(self);
      return Wait;
    }

    method Dequeue() returns (m: Msg)
      requires queue.Length == QUEUE_LEN && View().Shaped() && count > 0
      modifies this`head, this`count
      ensures m == old(View()).ring[old(head)] && View() == old(View()).Take() && View().Shaped()
    {
      TakeContents(View());
      m := queue[head];
      head := (head + 1) % QUEUE_LEN;
      count := count - 1;
    }

    /** The pass after a wakeup: off the list if still on it, then look again. */
    method SendWoken(m: Msg, self: Thread, mayBlock: bool) returns (reply: Reply<Thread>)
      requires Valid() && self !in waiting
      modifies this, queue, waiting, sending, self
      ensures Valid()
      ensures var r := SendResume(old(View()), m, self, mayBlock); View() == r.ep && reply == r.reply
    {
      hide RingIndex, Distinct, Chain, Without, SendAttempt, Valid;
      RemoveSender(self);
      Within(sending, old(sending));
      reply := SendPass(m, self, mayBlock);
    }

    method RecvWoken(self: Thread, mayBlock: bool) returns (reply: Reply<Thread>)
      requires Valid() && self !in sending
      modifies this, waiting, sending, self
      ensures Valid()
      ensures var r := RecvResume(old(View()), self, mayBlock); View() == r.ep && reply == r.reply
    {
      hide RingIndex, Distinct, Chain, Without, RecvAttempt, Valid;
      RemoveWaiter(self);
      Within(waiting, old(waiting));
      reply := RecvPass(self, mayBlock);
    }

    /** Takes one more reference. */
    method Hold()
      requires Valid()
      modifies this`refs
      ensures Valid() && View() == Ref(old(View()))
    {
      hide Chain, NoneIn;
      if used {
        refs := refs + 1;
      }
    }

    /** Drops one reference; the last one wakes every waiter and retires the endpoint. */
    method Release()
      requires Valid()
      modifies this, waiting, sending
      ensures Valid() && View() == Unref(old(View()))
      ensures old(used) && !used ==> forall t :: t in old(waiting) + old(sending) ==> t.state != Blocked
    {
      hide RingIndex, Distinct, Chain, Linked, Links, NoneIn;
      if !used || refs == 0 {
        return;
      }
      refs := refs - 1;
      if refs > 0 {
        return;
      }
      WakeWaiters();
      WakeSenders();
      used := false;
    }

    method WakeFirstWaiter()
      requires Valid() && waiting != []
      modifies this`waiters, this`waiting, waiting
      ensures Valid() && View() == old(View()).(waiters := waiting) && waiting == old(waiting)[1..]
      ensures old(waiting)[0].state != Blocked
      ensures forall t :: t in old(waiting) && t != old(waiting)[0] ==> t.state == old(t.state)
    {
      hide RingIndex, Distinct, Chain, Linked, Links, NoneIn, Valid;
      var t := PopWaiter();
      Unblock(t);
    }

    method WakeWaiters()
      requires Valid()
      modifies this`waiters, this`waiting, waiting
      ensures Valid() && View() == old(View()).(waiters := [])
      ensures forall t :: t in old(waiting) ==> t.state != Blocked
    {
      hide RingIndex, Distinct, Chain, Linked, Links, NoneIn, Valid, At;
      ghost var all := waiting;
      ghost var k := 0;
      while waiters != null
        invariant 0 <= k <= |all| && waiting == all[k..] && Valid()
        invariant View() == old(View()).(waiters := waiting)
        invariant forall i :: 0 <= i < k ==> all[i].state != Blocked
        decreases |all| - k
      {
        WakeFirstWaiter();
        k := k + 1;
      }
    }

    method WakeFirstSender()
      requires Valid() && sending != []
      modifies this`senders, this`sending, sending
      ensures Valid() && View() == old(View()).(senders := sending) && sending == old(sending)[1..]
      ensures old(sending)[0].state != Blocked
      ensures forall t :: t in old(sending) && t != old(sending)[0] ==> t.state == old(t.state)
    {
      hide RingIndex, Distinct, Chain, Linked, Links, NoneIn, Valid;
      var t := PopSender();
      Unblock(t);
    }

    method WakeSenders()
      requires Valid()
      modifies this`senders, this`sending, sending
      ensures Valid() && View() == old(View()).(senders := [])
      ensures forall t :: t in old(sending) ==> t.state != Blocked
    {
      hide RingIndex, Distinct, Chain, Linked, Links, NoneIn, Valid, At;
      ghost var all := sending;
      ghost var k := 0;
      while senders != null
        invariant 0 <= k <= |all| && sending == all[k..] && Valid()
        invariant View() == old(View()).(senders := sending)
        invariant forall i :: 0 <= i < k ==> all[i].state != Blocked
        decreases |all| - k
      {
        WakeFirstSender();
        k := k + 1;
      }
    }
  }

  ghost predicate NoneIn(a: seq<Thread>, b: seq<Thread>) {
    forall t :: t in a ==> t !in b
  }

  lemma Apart(a: seq<Thread>, b: seq<Thread>)
    requires NoneIn(a, b)
    ensures forall i :: 0 <= i < |a| ==> a[i] !in b
    ensures forall i :: 0 <= i < |b| ==> b[i] !in a
  {
  }

  lemma NoneInWithin(a: seq<Thread>, b: seq<Thread>, a': seq<Thread>, b': seq<Thread>)
    requires NoneIn(a, b)
    requires forall t :: t in a' ==> t in a
    requires forall t :: t in b' ==> t in b
    ensures NoneIn(a', b')
  {
  }

  lemma NoneInAdd(a: seq<Thread>, b: seq<Thread>, t: Thread)
    requires NoneIn(a, b) && t !in a && t !in b
    ensures NoneIn(a + [t], b) && NoneIn(a, b + [t])
  {
  }

  lemma Within(a: seq<Thread>, b: seq<Thread>)
    requires forall t :: t in a ==> t in b
    ensures forall i :: 0 <= i < |a| ==> a[i] in b
  {
  }

  lemma {:induction false} WithoutSubset(ts: seq<Thread>, t: Thread)
    requires Distinct(ts)
    ensures t !in Without(ts, t)
    ensures forall u :: u in Without(ts, t) ==> u in ts
    ensures ts == [] ==> Without(ts, t) == []
  {
    if ts != [] && ts[0] != t {
      WithoutSubset(ts[1..], t);
    }
  }
}
