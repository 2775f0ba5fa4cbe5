/** The scheduler as it runs: run queues, thread table, counters and zombie queue updated in
    place, each operation proved equal to its model. */
module SchedulerObjects {
  import opened Arithmetic
  import opened Sequences
  import opened Scheduling
  import opened SchedulerInvariant
  import opened SchedulerRuns

  lemma {:induction false} WithoutAt(q: seq<Tid>, t: Tid, i: nat)
    requires i < |q| && q[i] == t && t !in q[..i]
    ensures Without(q, t) == q[..i] + q[i + 1..]
  {
    if i > 0 {
      assert q[0] == q[..i][0];
      assert q[1..][..i - 1] == q[..i][1..];
      WithoutAt(q[1..], t, i - 1);
      assert q[..i] == [q[0]] + q[1..][..i - 1];
    }
  }

  lemma GoodMeans(s: Sched)
    requires Good(s)
    ensures Leaving(s) && Shaped(s) && s.threads[s.current].state == Running
  {
  }

  lemma PickedIsNoZombie(s: Sched)
    requires Leaving(s)
    ensures var p := PickNext(s);
      && p.s.current == s.current && p.s.threads == s.threads && p.s.idle == s.idle && p.s.zombies == s.zombies
      && (s.threads[s.current].state == Zombie ==>
            p.next !in s.zombies && s.idle !in s.zombies && s.current !in s.zombies)
  {
    PicksHead(s);
    hide Best;
  }

  class Scheduler {
    var threads: map<Tid, Thread>
    var runq: seq<seq<Tid>>
    var runqLen: seq<nat>
    var current: Tid
    var idle: Tid
    var ticks: nat
    var switches: nat
    var needResched: bool
    var zombies: seq<Tid>

    function View(): Sched
      reads this
    {
      Sched(threads, runq, runqLen, current, idle, ticks, switches, needResched, zombies)
    }

    /** After `sched_init` and the admission of idle. */
    constructor (boot: Tid, idleTid: Tid, priority: nat)
      requires boot != idleTid && 1 <= boot <= MAX_THREADS && 1 <= idleTid <= MAX_THREADS
      ensures View() == Booted(boot, idleTid, priority) && Good(View())
    {
      threads := map[
        boot := Thread(Running, priority, TIME_SLICE_TICKS, 0, 0, 0),
        idleTid := Thread(Created, PRIO_IDLE, TIME_SLICE_TICKS, 0, 0, 0)];
      ghost var empty: seq<seq<Tid>> := [[], [], [], [], [], [], [], []];
      runq, runqLen := [[], [], [], [], [], [], [], []], [0, 0, 0, 0, 0, 0, 0, 0];
      current, idle := boot, idleTid;
      ticks, switches, needResched, zombies := 0, 0, false, [];
      new;
      RunqPush(idleTid);
      assert [] + [idleTid] == [idleTid];
      assert runq == empty[7 := [idleTid]];
      assert threads == Booted(boot, idleTid, priority).threads;
      assert runq == Booted(boot, idleTid, priority).runq by {
        assert forall k :: 0 <= k < 7 ==> runq[k] == Booted(boot, idleTid, priority).runq[k];
      }
      BootedGood(boot, idleTid, priority);
    }

    method RunqPush(t: Tid)
      requires Shaped(View()) && t in threads
      modifies this
      ensures View() == Push(old(View()), t)
    {
      var p := threads[t].priority;
      if p >= PRIO_LEVELS {
        p := PRIO_LEVELS - 1;
      }
      runq := runq[p := runq[p] + [t]];
      runqLen := runqLen[p := runqLen[p] + 1];
      threads := threads[t := threads[t].(state := Runnable)];
    }

    /** The head of the first non-empty level, taken off; `found` is false when there is none. */
    method RunqPopHighest() returns (found: bool, t: Tid)
      requires Shaped(View())
      modifies this
      ensures found == (Best(old(runq), 0) < PRIO_LEVELS)
      ensures found ==> t == old(runq)[Best(old(runq), 0)][0] && View() == Pop(old(View()), Best(old(runq), 0))
      ensures !found ==> View() == old(View())
    {
      found, t := false, 0;
      for p := 0 to PRIO_LEVELS
        invariant View() == old(View())
        invariant Best(runq, 0) == Best(runq, p)
      {
        if runq[p] != [] {
          t := runq[p][0];
          runq := runq[p := runq[p][1..]];
          if runqLen[p] > 0 {
            runqLen := runqLen[p := runqLen[p] - 1];
          }
          return true, t;
        }
      }
    }

    method RunqRemove(t: Tid) returns (found: bool)
      requires Shaped(View())
      modifies this
      ensures View() == Remove(old(View()), t)
      ensures found == exists p :: 0 <= p < PRIO_LEVELS && t in old(runq)[p]
    {
      for p := 0 to PRIO_LEVELS
        invariant View() == old(View())
        invariant Holding(runq, t, 0) == Holding(runq, t, p)
        invariant forall k :: 0 <= k < p ==> t !in runq[k]
      {
        var i := 0;
        while i < |runq[p]|
          invariant View() == old(View())
          invariant i <= |runq[p]| && t !in runq[p][..i]
        {
          if runq[p][i] == t {
            WithoutAt(runq[p], t, i);
            runq := runq[p := runq[p][..i] + runq[p][i + 1..]];
            if runqLen[p] > 0 {
              runqLen := runqLen[p := runqLen[p] - 1];
            }
            return true;
          }
          i := i + 1;
        }
        assert runq[p][..|runq[p]|] == runq[p];
      }
      return false;
    }

    method PickNextThread() returns (next: Tid)
      requires Shaped(View())
      modifies this
      ensures Picked(next, View()) == PickNext(old(View()))
    {
      var found, t := RunqPopHighest();
      if !found {
        if threads[current].state == Running {
          return current;
        }
        return idle;
      }
      return t;
    }

    /** Hands an exited thread to the reaper's queue of sixteen, freeing the oldest when full. */
    method ReapThread(t: Tid)
      requires Shaped(View()) && t in threads && threads[t].state == Zombie
      modifies this
      ensures View() == Reap(old(View()), t)
    {
      var wasQueued := RunqRemove(t);
      ghost var r := View();
      var i := 0;
      while i < |zombies|
        invariant i <= |zombies| && View() == r && t !in zombies[..i]
      {
        if zombies[i] == t {
          return;
        }
        i := i + 1;
      }
      assert zombies[..|zombies|] == zombies;
      if |zombies| < ZOMBIE_SLOTS {
        zombies := zombies + [t];
      } else {
        threads := threads - {zombies[0]};
        zombies := zombies[1..] + [t];
      }
    }

    method RunThread(next: Tid)
      requires Shaped(View()) && next in threads
      modifies this
      ensures View() == Install(old(View()), next)
    {
      var t := threads[next];
      threads := threads[next := t.(state := Running, timeSlice := TIME_SLICE_TICKS, switches := t.switches + 1)];
      current := next;
      switches := switches + 1;
    }

    /** `Good` of the state the thread was picked from gives the requirement on the zombie
        branch: neither `next` nor idle is waiting to be reaped. */
    method SwitchThread(next: Tid)
      requires Shaped(View()) && next in threads && |zombies| <= ZOMBIE_SLOTS
      requires threads[current].state == Zombie ==>
        next !in zombies && idle !in zombies && current !in zombies
      modifies this
      ensures View() == SwitchTo(old(View()), next)
    {
      var prev := current;
      if next == prev {
        return;
      }
      if threads[prev].state == Running {
        RunqPush(prev);
      } else if threads[prev].state == Zombie {
        ReapThread(prev);
      }
      RunThread(next);
    }

    method PickAndSwitch()
      requires Leaving(View()) && threads[current].state in {Running, Zombie}
      modifies this
      ensures var p := PickNext(old(View()));
        p.next in p.s.threads && View() == SwitchTo(p.s, p.next) && current == p.next
      ensures Good(View())
    {
      SwitchGood(View());
      PickedIsNoZombie(View());
      var next := PickNextThread();
      hide Leaving, Good, PickNext, SwitchTo;
      SwitchThread(next);
    }

    method Admit(t: Tid)
      requires Good(View()) && t in threads
      modifies this
      ensures View() == Scheduling.Admit(old(View()), t) && Good(View())
    {
      AdmitGood(View(), t);
      hide Good;
      if threads[t].state == Created {
        RunqPush(t);
      }
    }

    method Unblock(t: Tid)
      requires Good(View()) && t in threads
      modifies this
      ensures View() == Scheduling.Unblock(old(View()), t) && Good(View())
    {
      UnblockGood(View(), t);
      hide Good;
      if threads[t].state == Blocked {
        RunqPush(t);
      }
    }

    method Yield()
      requires Leaving(View()) && threads[current].state in {Running, Zombie}
      modifies this
      ensures View() == Scheduling.Yield(old(View())) && Good(View())
    {
      ghost var v := View();
      if threads[current].state == Running {
        CurrentRuns(v, threads[current].(timeSlice := TIME_SLICE_TICKS));
        threads := threads[current := threads[current].(timeSlice := TIME_SLICE_TICKS)];
      }
      assert Leaving(View());
      hide Leaving, Good, PickNext, SwitchTo;
      PickAndSwitch();
    }

    /** One switch of the wait: the thread leaves the processor, and the call returns when the
        thread is resumed. */
    method LeaveProcessor()
      requires Leaving(View()) && threads[current].state in {Blocked, Sleeping}
      modifies this
      ensures View() == Leave(old(View())) && Good(View())
    {
      LeaveGood(View());
      SomethingIsQueued(View());
      PicksHead(View());
      var next := PickNextThread();
      hide Leaving, Good, PickNext;
      if next == current {
        next := idle;
      }
      RunThread(next);
    }

    method Block()
      requires Good(View())
      modifies this
      ensures View() == Scheduling.Block(old(View())) && Good(View())
    {
      if current == idle {
        return;
      }
      hide Good, Leaving, Leave;
      ghost var v := View();
      GoodMeans(v);
      var c := threads[current].(state := Blocked);
      CurrentStops(v, c);
      threads := threads[current := c];
      assert View() == v.(threads := v.threads[v.current := c]);
      LeaveProcessor();
    }

    method Sleep(n: nat)
      requires Good(View())
      modifies this
      ensures View() == Scheduling.Sleep(old(View()), n) && Good(View())
    {
      ghost var v := View();
      GoodMeans(v);
      hide Good, Leaving, Leave;
      if current == idle || n == 0 {
        return;
      }
      var c := threads[current].(state := Sleeping, wakeTick := ticks + n);
      CurrentStops(v, c);
      threads := threads[current := c];
      assert View() == v.(threads := v.threads[v.current := c]);
      assert Scheduling.Sleep(v, n) == Leave(View());
      hide Scheduling.Sleep;
      LeaveProcessor();
    }

    method Exit()
      requires Good(View()) && current != idle
      modifies this
      ensures View() == Scheduling.Exit(old(View())) && Good(View())
    {
      hide Good, Leaving, Scheduling.Yield;
      ghost var v := View();
      GoodMeans(v);
      var c := threads[current].(state := Zombie);
      CurrentStops(v, c);
      threads := threads[current := c];
      assert View() == v.(threads := v.threads[v.current := c]);
      Yield();
    }

    method WakeDue(now: nat)
      requires Shaped(View())
      modifies this
      ensures View() == WakeSleepers(old(View()), now, Tids(MAX_THREADS))
    {
      ghost var all := Tids(MAX_THREADS);
      hide Tids;
      assert all[0..] == all;
      for i := 0 to MAX_THREADS
        invariant Shaped(View())
        invariant WakeSleepers(View(), now, all[i..]) == WakeSleepers(old(View()), now, all)
      {
        var t := i + 1;
        assert all[i..][0] == t && all[i..][1..] == all[i + 1..];
        if t in threads && threads[t].state == Sleeping && now >= threads[t].wakeTick {
          RunqPush(t);
        }
      }
    }

    method Tick()
      requires Good(View())
      modifies this
      ensures View() == Scheduling.Tick(old(View()), Tids(MAX_THREADS)) && Good(View())
    {
      ghost var v := View();
      hide Good, Tids, WakeSleepers, Leaving, PickNext, SwitchTo;
      GoodMeans(v);
      TickedGood(v, Tids(MAX_THREADS));
      ticks := ticks + 1;
      WakeDue(ticks);
      var c := threads[current];
      threads := threads[current := c.(totalTicks := c.totalTicks + 1)];
      if c.timeSlice > 0 {
        threads := threads[current := threads[current].(timeSlice := c.timeSlice - 1)];
      }
      assert View() == Ticked(v, Tids(MAX_THREADS));
      ghost var w := View();
      if threads[current].timeSlice == 0 || needResched {
        TicksMove(w, w.ticks, false);
        needResched := false;
        assert View() == w.(ticks := w.ticks, needResched := false);
        GoodMeans(View());
        PickAndSwitch();
      }
    }

    method CollectZombies()
      modifies this
      ensures View() == Scheduling.CollectZombies(old(View()))
    {
      assert threads == threads - (set z | z in []);
      assert zombies == zombies[..|zombies|];
      while |zombies| > 0
        invariant |zombies| <= |old(zombies)| && zombies == old(zombies)[..|zombies|]
        invariant threads == old(threads) - (set z | z in old(zombies)[|zombies|..])
        invariant View() == old(View()).(threads := threads, zombies := zombies)
        decreases |zombies|
      {
        var zombie := zombies[|zombies| - 1];
        zombies := zombies[..|zombies| - 1];
        threads := threads - {zombie};
        assert old(zombies)[|zombies|..] == [zombie] + old(zombies)[|zombies| + 1..];
      }
    }
  }
}
