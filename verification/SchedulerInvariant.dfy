/** Every scheduler operation keeps the invariant, and the thread switched to is always the
    one that has waited longest at the best level. */
module SchedulerInvariant {
  import opened Arithmetic
  import opened Sequences
  import opened Scheduling

  // ---- the queue under single changes ---------------------------------------------------------

  lemma PushQueued(s: Sched, x: set<Tid>, t: Tid)
    requires Shaped(s) && QueuedExcept(s, x) && t in s.threads && t !in x && s.threads[t].state != Runnable
    ensures QueuedExcept(Push(s, t), x)
  {
    var p := Level(s.threads[t]);
    assert t !in s.runq[p];
  }

  lemma PopQueued(s: Sched, x: set<Tid>, p: nat)
    requires Shaped(s) && QueuedExcept(s, x) && p < PRIO_LEVELS && s.runq[p] != []
    ensures QueuedExcept(Pop(s, p), x + {s.runq[p][0]})
    ensures s.runq[p][0] in s.threads && s.threads[s.runq[p][0]].state == Runnable
  {
    var h := s.runq[p][0];
    assert h in s.runq[p];
    assert h !in s.runq[p][1..];
    assert forall t :: t in s.runq[p] <==> t == h || t in s.runq[p][1..];
  }

  lemma InstallQueued(s: Sched, x: set<Tid>, next: Tid)
    requires Shaped(s) && QueuedExcept(s, x) && next in s.threads
    requires next in x || s.threads[next].state != Runnable
    ensures QueuedExcept(Install(s, next), x - {next})
  {
  }

  /** A change that leaves every thread's standing with the queue alone. */
  lemma SameQueued(s: Sched, r: Sched, x: set<Tid>)
    requires QueuedExcept(s, x) && r.runq == s.runq && r.runqLen == s.runqLen
    requires forall t :: t in s.threads && s.threads[t].state == Runnable ==>
      t in r.threads && r.threads[t].state == Runnable && r.threads[t].priority == s.threads[t].priority
    requires forall t :: t in r.threads && r.threads[t].state == Runnable ==>
      t in s.threads && s.threads[t].state == Runnable
    ensures QueuedExcept(r, x)
  {
  }

  /** Something is queued whenever the current thread is not the one to fall back on. */
  lemma SomethingIsQueued(s: Sched)
    requires Leaving(s) && s.idle != s.current
    ensures Best(s.runq, 0) < PRIO_LEVELS
  {
    var p := Level(s.threads[s.idle]);
    assert s.idle in s.runq[p];
  }

  /** The thread picked is the FIFO head of the best non-empty level; the fallback to idle is
      never taken, and the fallback to the current thread only when nothing at all is
      queued. */
  lemma PicksHead(s: Sched)
    requires Leaving(s)
    ensures var p := Best(s.runq, 0); var r := PickNext(s);
      if p < PRIO_LEVELS then
        && r == Picked(s.runq[p][0], Pop(s, p))
        && (forall k :: 0 <= k < p ==> s.runq[k] == [])
        && r.next in s.threads && r.next != s.current && s.threads[r.next].state == Runnable
        && QueuedExcept(r.s, {r.next})
      else r == Picked(s.current, s) && s.current == s.idle && s.threads[s.current].state == Running
  {
    hide Best;
    if s.idle != s.current {
      SomethingIsQueued(s);
    }
    if Best(s.runq, 0) < PRIO_LEVELS {
      PopQueued(s, {}, Best(s.runq, 0));
      assert {} + {s.runq[Best(s.runq, 0)][0]} == {s.runq[Best(s.runq, 0)][0]};
    }
  }

  // ---- switching keeps the invariant --------------------------------------------------------------

  lemma NotQueued(s: Sched, x: set<Tid>, t: Tid)
    requires Shaped(s) && QueuedExcept(s, x) && t in s.threads && s.threads[t].state != Runnable
    ensures Remove(s, t) == s
  {
  }

  /** What is left of the invariant once the next thread has been taken off its queue. */
  ghost predicate Picking(s: Sched, next: Tid) {
    && Shaped(s) && QueuedExcept(s, {next}) && ZombiesListed(s)
    && next in s.threads && next != s.current && s.threads[next].state == Runnable
    && s.threads[s.current].state in {Running, Blocked, Sleeping, Zombie}
    && (forall t :: t in s.threads && s.threads[t].state == Running ==> t == s.current)
    && (if s.idle == s.current then s.threads[s.idle].state == Running
        else s.threads[s.idle].state == Runnable)
  }

  lemma PickingAfterPick(s: Sched)
    requires Leaving(s) && Best(s.runq, 0) < PRIO_LEVELS
    ensures Picking(PickNext(s).s, PickNext(s).next)
  {
    hide Best;
    PicksHead(s);
  }

  lemma InstallGood(s: Sched, next: Tid)
    requires Picking(s, next) && s.threads[s.current].state in {Blocked, Sleeping}
    ensures Good(Install(s, next)) && Install(s, next).current == next
  {
    InstallQueued(s, {next}, next);
    assert {next} - {next} == {};
    hide QueuedExcept;
  }

  lemma PreemptGood(s: Sched, next: Tid)
    requires Picking(s, next) && s.threads[s.current].state == Running
    ensures Good(SwitchTo(s, next)) && SwitchTo(s, next).current == next
  {
    PushQueued(s, {next}, s.current);
    InstallQueued(Push(s, s.current), {next}, next);
    assert {next} - {next} == {};
    hide QueuedExcept;
  }

  lemma ReapQueued(s: Sched, x: set<Tid>, t: Tid)
    requires Shaped(s) && QueuedExcept(s, x) && ZombiesListed(s)
    requires t == s.current && s.threads[t].state == Zombie
    ensures var r := Reap(s, t);
      && QueuedExcept(r, x) && r.runq == s.runq
      && |r.zombies| <= ZOMBIE_SLOTS && Distinct(r.zombies)
      && (forall u :: u in s.threads && s.threads[u].state != Zombie ==> u in r.threads && r.threads[u] == s.threads[u])
      && (forall u :: u in r.threads ==> u in s.threads && r.threads[u] == s.threads[u])
      && (forall z :: z in r.zombies ==> z in r.threads && r.threads[z].state == Zombie)
      && (forall u :: u in r.threads && r.threads[u].state == Zombie ==> u in r.zombies)
      && t in r.threads && r.current == s.current && r.idle == s.idle
  {
    NotQueued(s, x, t);
    hide Remove;
    var r := Reap(s, t);
    if |s.zombies| >= ZOMBIE_SLOTS {
      var z := s.zombies[0];
      assert z in s.zombies && z !in s.zombies[1..];
      assert forall u :: u in s.zombies[1..] ==> u in s.zombies;
    }
    SameQueued(s, r, x);
  }

  /** After the exited thread has been handed over: it waits with the other zombies. */
  ghost predicate Reaped(s: Sched, next: Tid) {
    && Shaped(s) && QueuedExcept(s, {next})
    && |s.zombies| <= ZOMBIE_SLOTS && Distinct(s.zombies)
    && (forall z :: z in s.zombies ==> z in s.threads && s.threads[z].state == Zombie)
    && (forall u :: u in s.threads && s.threads[u].state == Zombie ==> u in s.zombies)
    && next in s.threads && s.threads[next].state == Runnable
    && (forall u :: u in s.threads ==> s.threads[u].state != Running)
    && s.threads[s.idle].state == Runnable
  }

  lemma ReapReady(s: Sched, next: Tid)
    requires Picking(s, next) && s.threads[s.current].state == Zombie
    ensures Reaped(Reap(s, s.current), next)
  {
    ReapQueued(s, {next}, s.current);
    hide Reap, QueuedExcept;
  }

  lemma InstallReaped(s: Sched, next: Tid)
    requires Reaped(s, next)
    ensures Good(Install(s, next))
  {
    InstallQueued(s, {next}, next);
    assert {next} - {next} == {};
    hide QueuedExcept;
  }

  lemma ExitGood(s: Sched, next: Tid)
    requires Picking(s, next) && s.threads[s.current].state == Zombie
    ensures Good(SwitchTo(s, next)) && SwitchTo(s, next).current == next
  {
    ReapReady(s, next);
    hide Reap, QueuedExcept, Good, ZombiesListed;
    InstallReaped(Reap(s, s.current), next);
  }

  /** `switch_to(pick_next())` from any state an operation can leave the current thread in. */
  lemma SwitchGood(s: Sched)
    requires Leaving(s) && s.threads[s.current].state in {Running, Zombie}
    ensures var p := PickNext(s); p.next in p.s.threads && Good(SwitchTo(p.s, p.next))
    ensures SwitchTo(PickNext(s).s, PickNext(s).next).current == PickNext(s).next
  {
    hide Best, QueuedExcept;
    PicksHead(s);
    if Best(s.runq, 0) < PRIO_LEVELS {
      PickingAfterPick(s);
      var p := PickNext(s);
      hide Picking, PickNext, SwitchTo, Good, Leaving;
      PickingKeeps(s);
      if s.threads[s.current].state == Running {
        PreemptGood(p.s, p.next);
      } else {
        ExitGood(p.s, p.next);
      }
    }
  }

  lemma PickingKeeps(s: Sched)
    requires Shaped(s)
    ensures PickNext(s).s.current == s.current && PickNext(s).s.threads == s.threads && PickNext(s).s.idle == s.idle
    ensures Picking(PickNext(s).s, PickNext(s).next) ==> PickNext(s).next in PickNext(s).s.threads
  {
    hide Best, QueuedExcept;
  }

  lemma LeaveGood(s: Sched)
    requires Leaving(s) && s.threads[s.current].state in {Blocked, Sleeping}
    ensures Good(Leave(s)) && Leave(s).current == PickNext(s).next
  {
    hide Best, QueuedExcept;
    SomethingIsQueued(s);
    PicksHead(s);
    PickingAfterPick(s);
    InstallGood(PickNext(s).s, PickNext(s).next);
  }

  // ---- every operation --------------------------------------------------------------------------------

  lemma CreateGood(s: Sched, t: Tid, priority: nat)
    requires Good(s) && t !in s.threads
    ensures Good(Create(s, t, priority))
  {
    SameQueued(s, Create(s, t, priority), {});
    hide QueuedExcept;
  }

  lemma AdmitGood(s: Sched, t: Tid)
    requires Good(s) && t in s.threads
    ensures Good(Admit(s, t))
  {
    if s.threads[t].state == Created {
      PushQueued(s, {}, t);
    }
    hide QueuedExcept;
  }

  lemma UnblockGood(s: Sched, t: Tid)
    requires Good(s) && t in s.threads
    ensures Good(Unblock(s, t))
  {
    if s.threads[t].state == Blocked {
      PushQueued(s, {}, t);
    }
    hide QueuedExcept;
  }

  /** The running thread may change everything about itself but where it would be queued. */
  lemma CurrentChanges(s: Sched, c: Thread, ticks: nat, resched: bool)
    requires Leaving(s) && s.threads[s.current].state == Running
    requires c.state == Running || (s.current != s.idle && c.state in {Blocked, Sleeping, Zombie})
    ensures Leaving(s.(threads := s.threads[s.current := c], ticks := ticks, needResched := resched))
  {
    SameQueued(s, s.(threads := s.threads[s.current := c], ticks := ticks, needResched := resched), {});
    hide QueuedExcept;
  }

  lemma YieldGood(s: Sched)
    requires Leaving(s) && s.threads[s.current].state in {Running, Zombie}
    ensures Good(Yield(s)) && Yield(s).current == PickNext(s).next
  {
    var c := s.threads[s.current];
    var s1 := if c.state == Running
      then s.(threads := s.threads[s.current := c.(timeSlice := TIME_SLICE_TICKS)]) else s;
    hide QueuedExcept, Best, Good, SwitchTo;
    if c.state == Running {
      CurrentChanges(s, c.(timeSlice := TIME_SLICE_TICKS), s.ticks, s.needResched);
      assert s1 == s.(threads := s.threads[s.current := c.(timeSlice := TIME_SLICE_TICKS)], ticks := s.ticks, needResched := s.needResched);
    }
    assert PickNext(s1).next == PickNext(s).next;
    hide Leaving, PickNext;
    SwitchGood(s1);
  }

  /** The state of a thread that is not idle does not matter for what is picked. */
  lemma SamePick(s: Sched, r: Sched)
    requires Leaving(s) && Shaped(r) && s.idle != s.current
    requires r.runq == s.runq && r.idle == s.idle && r.current == s.current
    ensures PickNext(r).next == PickNext(s).next && PickNext(s).next != s.current
  {
    hide Best, QueuedExcept;
    SomethingIsQueued(s);
    PicksHead(s);
  }

  lemma CurrentStops(s: Sched, c: Thread)
    requires Good(s) && s.current != s.idle && c.state in {Blocked, Sleeping, Zombie}
    ensures Leaving(s.(threads := s.threads[s.current := c]))
  {
    hide QueuedExcept, ZombiesListed;
    CurrentChanges(s, c, s.ticks, s.needResched);
    assert s.(threads := s.threads[s.current := c])
      == s.(threads := s.threads[s.current := c], ticks := s.ticks, needResched := s.needResched);
  }

  lemma CurrentLeaves(s: Sched, c: Thread)
    requires Good(s) && s.current != s.idle && c.state in {Blocked, Sleeping}
    ensures var r := Leave(s.(threads := s.threads[s.current := c]));
      Good(r) && r.current == PickNext(s).next && r.current != s.current
  {
    var s1 := s.(threads := s.threads[s.current := c]);
    hide QueuedExcept, Best;
    CurrentStops(s, c);
    SamePick(s, s1);
    hide Leaving, Leave, PickNext;
    LeaveGood(s1);
  }

  lemma BlockGood(s: Sched)
    requires Good(s)
    ensures Good(Block(s))
    ensures Block(s).current == if s.current == s.idle then s.current else PickNext(s).next
  {
    hide Leave, PickNext, QueuedExcept;
    if s.current != s.idle {
      CurrentLeaves(s, s.threads[s.current].(state := Blocked));
      hide Leaving;
    }
  }

  lemma SleepGood(s: Sched, n: nat)
    requires Good(s)
    ensures Good(Sleep(s, n))
    ensures Sleep(s, n).current == if s.current == s.idle || n == 0 then s.current else PickNext(s).next
  {
    hide Leave, PickNext, QueuedExcept;
    if s.current != s.idle && n > 0 {
      CurrentLeaves(s, s.threads[s.current].(state := Sleeping, wakeTick := s.ticks + n));
      hide Leaving;
    }
  }

  /** Any thread but idle may exit. */
  lemma ExitKeepsGood(s: Sched)
    requires Good(s) && s.current != s.idle
    ensures Good(Exit(s)) && Exit(s).current == PickNext(s).next && Exit(s).current != s.current
  {
    var c := s.threads[s.current].(state := Zombie);
    var s1 := WithState(s, s.current, Zombie);
    hide QueuedExcept, Best;
    CurrentStops(s, c);
    SamePick(s, s1);
    hide Leaving, Yield, PickNext;
    YieldGood(s1);
  }

  lemma PushGood(s: Sched, t: Tid)
    requires Good(s) && t in s.threads && s.threads[t].state in {Created, Blocked, Sleeping}
    ensures Good(Push(s, t)) && Push(s, t).current == s.current
  {
    PushQueued(s, {}, t);
    hide QueuedExcept;
  }

  lemma {:induction false} WakeGood(s: Sched, now: nat, tids: seq<Tid>)
    requires Good(s)
    ensures var r := WakeSleepers(s, now, tids); Good(r) && r.current == s.current
    decreases |tids|
  {
    if tids != [] {
      var t := tids[0];
      if t in s.threads && s.threads[t].state == Sleeping && now >= s.threads[t].wakeTick {
        PushGood(s, t);
        hide Push, Good;
        WakeGood(Push(s, t), now, tids[1..]);
      } else {
        hide Push;
        WakeGood(s, now, tids[1..]);
      }
    }
  }

  /** After the sleepers and the accounting: the state in which the tick decides to switch. */
  function Ticked(s: Sched, tids: seq<Tid>): (r: Sched)
    requires Shaped(s)
    ensures Shaped(r)
  {
    var s1 := WakeSleepers(s.(ticks := s.ticks + 1), s.ticks + 1, tids);
    var c := s1.threads[s1.current];
    s1.(threads := s1.threads[s1.current := c.(totalTicks := c.totalTicks + 1, timeSlice := Dec(c.timeSlice))])
  }

  lemma TicksMove(s: Sched, ticks: nat, resched: bool)
    requires Good(s)
    ensures Good(s.(ticks := ticks, needResched := resched))
  {
    var c := s.threads[s.current];
    hide QueuedExcept;
    CurrentChanges(s, c, ticks, resched);
    assert s.(ticks := ticks, needResched := resched)
      == s.(threads := s.threads[s.current := c], ticks := ticks, needResched := resched);
  }

  lemma CurrentRuns(s: Sched, c: Thread)
    requires Good(s) && c.state == Running
    ensures Good(s.(threads := s.threads[s.current := c]))
  {
    hide QueuedExcept;
    CurrentChanges(s, c, s.ticks, s.needResched);
    assert s.(threads := s.threads[s.current := c])
      == s.(threads := s.threads[s.current := c], ticks := s.ticks, needResched := s.needResched);
  }

  lemma TickedGood(s: Sched, tids: seq<Tid>)
    requires Good(s)
    ensures Good(Ticked(s, tids)) && Ticked(s, tids).current == s.current
  {
    hide QueuedExcept, WakeSleepers, ZombiesListed;
    TicksMove(s, s.ticks + 1, s.needResched);
    var s0 := s.(ticks := s.ticks + 1);
    assert s0 == s.(ticks := s.ticks + 1, needResched := s.needResched);
    WakeGood(s0, s.ticks + 1, tids);
    var s1 := WakeSleepers(s0, s.ticks + 1, tids);
    var c := s1.threads[s1.current];
    assert c.state == Running;
    hide Leaving, Good;
    CurrentRuns(s1, c.(totalTicks := c.totalTicks + 1, timeSlice := Dec(c.timeSlice)));
  }

  /** The tick switches exactly when the slice is used up or a switch was asked for. */
  lemma TickGood(s: Sched, tids: seq<Tid>)
    requires Good(s)
    ensures var w := Ticked(s, tids);
      && Good(Tick(s, tids))
      && Tick(s, tids).current ==
           if w.threads[w.current].timeSlice == 0 || w.needResched then PickNext(w).next else s.current
  {
    hide *;
    GoodIsLeaving(s);
    var w := Ticked(s, tids);
    TickedGood(s, tids);
    GoodIsLeaving(w);
    TickIs(s, tids, w);
    TicksMove(w, w.ticks, false);
    GoodIsLeaving(w.(needResched := false));
    SwitchGood(w.(needResched := false));
  }

  lemma GoodIsLeaving(s: Sched)
    requires Good(s)
    ensures Shaped(s) && Leaving(s) && s.current in s.threads && s.threads[s.current].state == Running
  {
  }

  /** The tick after the accounting. */
  lemma TickIs(s: Sched, tids: seq<Tid>, w: Sched)
    requires Good(s) && w == Ticked(s, tids) && Leaving(w)
    ensures var v := w.(needResched := false); var p := PickNext(v);
      && v == w.(ticks := w.ticks, needResched := false) && p.next == PickNext(w).next
      && Tick(s, tids) == if w.threads[w.current].timeSlice == 0 || w.needResched
           then if p.next in p.s.threads then SwitchTo(p.s, p.next) else p.s
           else w
  {
    hide WakeSleepers, SwitchTo, QueuedExcept, ZombiesListed, Best;
  }

  lemma CollectGood(s: Sched)
    requires Good(s)
    ensures Good(CollectZombies(s))
    ensures forall t :: t in CollectZombies(s).threads ==> CollectZombies(s).threads[t].state != Zombie
  {
    SameQueued(s, CollectZombies(s), {});
    hide QueuedExcept;
  }
}
