/** Lists of blocked threads, chained through the threads themselves. */
module WaitLists {
  import opened Sequences

  datatype ThreadState = Running | Runnable | Blocked

  class Thread {
    var state: ThreadState
    var waitNext: Thread?
  }

  function At(ts: seq<Thread>, i: nat): (t: Thread?)
    ensures i < |ts| ==> t == ts[i]
  {
    if i < |ts| then ts[i] else null
  }

  /** The chain from `head` runs through exactly the threads of `ts`, in order. */
  ghost predicate Chain(head: Thread?, ts: seq<Thread>)
    reads ts`waitNext
  {
    && head == At(ts, 0)
    && (forall i :: 0 <= i < |ts| ==> ts[i].waitNext == At(ts, i + 1))
    && Distinct(ts)
  }

  ghost function Links(ts: seq<Thread>): (next: seq<Thread?>)
    reads ts`waitNext
    ensures |next| == |ts| && forall i :: 0 <= i < |ts| ==> next[i] == ts[i].waitNext
  {
    if ts == [] then [] else [ts[0].waitNext] + Links(ts[1..])
  }

  ghost predicate Linked(head: Thread?, ts: seq<Thread>, next: seq<Thread?>)
    requires |next| == |ts|
  {
    && head == At(ts, 0)
    && (forall i :: 0 <= i < |ts| ==> next[i] == At(ts, i + 1))
    && Distinct(ts)
  }

  /** A chain is its links, so it survives writes elsewhere. */
  lemma ChainIsLinked(head: Thread?, ts: seq<Thread>)
    ensures Chain(head, ts) <==> Linked(head, ts, Links(ts))
  {
  }

  function Skip<T>(ts: seq<T>, k: nat): (r: seq<T>)
    requires k < |ts|
    ensures |r| == |ts| - 1
    ensures forall j :: 0 <= j < |r| ==> r[j] == ts[if j < k then j else j + 1]
  {
    ts[..k] + ts[k + 1..]
  }

  lemma SkipDistinct<T>(ts: seq<T>, k: nat)
    requires k < |ts| && Distinct(ts)
    ensures Distinct(Skip(ts, k)) && ts[k] !in Skip(ts, k)
  {
    hide Skip;
  }

  lemma {:induction false} WithoutAt<T>(ts: seq<T>, k: nat)
    requires k < |ts| && forall i :: 0 <= i < k ==> ts[i] != ts[k]
    ensures Without(ts, ts[k]) == Skip(ts, k)
  {
    if k > 0 {
      WithoutAt(ts[1..], k - 1);
      assert Skip(ts, k) == [ts[0]] + Skip(ts[1..], k - 1);
    }
  }

  /** Appends: the thread that has waited longest stays first. */
  method WaiterAdd(head: Thread?, thread: Thread, ghost ts: seq<Thread>) returns (first: Thread)
    requires Chain(head, ts) && thread !in ts
    modifies thread`waitNext, ts`waitNext
    ensures Chain(first, ts + [thread])
  {
    thread.waitNext := null;
    if head == null {
      return thread;
    }
    var tail: Thread := head;
    ghost var i := 0;
    while tail.waitNext != null
      invariant 0 <= i < |ts| && tail == ts[i]
      invariant Chain(head, ts) && thread.waitNext == null
      decreases |ts| - i
    {
      tail := tail.waitNext;
      i := i + 1;
    }
    tail.waitNext := thread;
    first := head;
  }

  method Unlink(head: Thread?, prev: Thread?, thread: Thread, ghost ts: seq<Thread>, ghost i: nat)
    returns (first: Thread?)
    requires Chain(head, ts) && i < |ts| && thread == ts[i]
    requires if i == 0 then prev == null else prev == ts[i - 1]
    modifies ts`waitNext
    ensures Chain(first, Skip(ts, i))
  {
    hide Skip, Distinct;
    SkipDistinct(ts, i);
    ghost var rest := Skip(ts, i);
    assert forall j :: 0 <= j < |ts| ==> ts[j].waitNext == At(ts, j + 1);
    first := head;
    if prev == null {
      first := thread.waitNext;
    } else {
      prev.waitNext := thread.waitNext;
    }
    thread.waitNext := null;
    forall j | 0 <= j < |rest|
      ensures rest[j].waitNext == At(rest, j + 1)
    {
      assert rest[j] != thread;
      if prev != null && rest[j] != prev {
        assert j != i - 1;
      }
    }
  }

  /** Takes one thread out wherever it stands; a thread that is not there is no error. */
  method WaiterRemove(head: Thread?, thread: Thread, ghost ts: seq<Thread>) returns (first: Thread?)
    requires Chain(head, ts)
    modifies ts`waitNext
    ensures Chain(first, Without(ts, thread))
  {
    var prev: Thread? := null;
    var link := head;
    ghost var i := 0;
    while link != null
      invariant 0 <= i <= |ts| && link == At(ts, i)
      invariant (if i == 0 then prev == null else prev == ts[i - 1])
      invariant forall j :: 0 <= j < i ==> ts[j] != thread
      invariant Chain(head, ts)
      decreases |ts| - i
    {
      if link == thread {
        WithoutAt(ts, i);
        first := Unlink(head, prev, thread, ts, i);
        return;
      }
      prev := link;
      link := link.waitNext;
      i := i + 1;
    }
    first := head;
  }

  /** Takes the thread that has waited longest. */
  method WaiterPop(head: Thread?, ghost ts: seq<Thread>) returns (thread: Thread?, first: Thread?)
    requires Chain(head, ts)
    modifies ts`waitNext
    ensures thread == if ts == [] then null else ts[0]
    ensures Chain(first, if ts == [] then [] else ts[1..])
  {
    thread := head;
    first := head;
    if thread != null {
      first := thread.waitNext;
      thread.waitNext := null;
    }
  }
}
