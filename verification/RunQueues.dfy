/** One level of the scheduler's run queue as it lies in memory: a list chained through the
    threads themselves, in the manner of the wait lists but through a link of its own, and its
    length. The scheduler's model has the list as a sequence. */
module RunQueues {
  import opened Arithmetic
  import opened Sequences
  import opened WaitLists

  class Level {
    var head: Thread?
    var length: nat
    ghost var queue: seq<Thread>

    ghost predicate Valid()
      reads this, queue`waitNext
    {
      Chain(head, queue) && length == |queue|
    }

    constructor ()
      ensures Valid() && queue == []
    {
      head, length, queue := null, 0, [];
    }

    /** Appends: the thread that has been ready longest stays first. */
    method Push(thread: Thread)
      requires Valid() && thread !in queue
      modifies this, queue`waitNext, thread
      ensures Valid() && queue == old(queue) + [thread] && thread.state == Runnable
    {
      hide Chain;
      head := WaiterAdd(head, thread, queue);
      length := length + 1;
      queue := queue + [thread];
      thread.state := Runnable;
    }

    /** Takes the thread that has been ready longest. */
    method Pop() returns (thread: Thread?)
      requires Valid()
      modifies this, queue`waitNext
      ensures Valid() && thread == At(old(queue), 0)
      ensures queue == if old(queue) == [] then [] else old(queue)[1..]
    {
      hide Chain;
      ghost var was := queue;
      thread, head := WaiterPop(head, queue);
      if thread == null {
        return;
      }
      length := Dec(length);
      queue := queue[1..];
    }

    /** Takes one thread out wherever it stands, and says whether it was there. */
    method Remove(thread: Thread) returns (found: bool)
      requires Valid()
      modifies this, queue`waitNext
      ensures Valid() && queue == Without(old(queue), thread)
      ensures found <==> thread in old(queue)
    {
      var prev: Thread? := null;
      var node := head;
      ghost var i := 0;
      while node != null
        invariant 0 <= i <= |queue| && node == At(queue, i)
        invariant (if i == 0 then prev == null else prev == queue[i - 1])
        invariant forall j :: 0 <= j < i ==> queue[j] != thread
        decreases |queue| - i
      {
        if node == thread {
          WithoutAt(queue, i);
          head := Unlink(head, prev, thread, queue, i);
          length := Dec(length);
          queue := Without(queue, thread);
          return true;
        }
        prev := node;
        node := node.waitNext;
        i := i + 1;
      }
      return false;
    }
  }
}
