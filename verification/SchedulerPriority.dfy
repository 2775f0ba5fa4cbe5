/** Strict priority between the levels, operation by operation: exactly when the thread that runs
    afterwards is as urgent as every thread that could. */
module SchedulerPriority {
  import opened Arithmetic
  import opened Sequences
  import opened Scheduling
  import opened SchedulerInvariant
  import opened SchedulerRuns

  // ---- queues and threads -------------------------------------------------------------------------

  ghost predicate Ready(s: Sched, t: Tid) {
    t in s.threads && s.threads[t].state == Runnable
  }

  /** Nothing is ready, or something as urgent as the running thread is. */
  ghost predicate PeerOrNone(s: Sched)
    requires Shaped(s)
  {
    (exists t :: Ready(s, t)) ==> exists t :: Ready(s, t) && Level(s.threads[t]) <= Level(s.threads[s.current])
  }

  /** The queue tells what the threads say. */
  lemma UrgentMeans(s: Sched)
    requires Good(s)
    ensures Shaped(s)
    ensures MostUrgent(s) <==> forall t :: Ready(s, t) ==> Level(s.threads[t]) >= Level(s.threads[s.current])
  {
    if MostUrgent(s) {
      forall t | Ready(s, t) ensures Level(s.threads[t]) >= Level(s.threads[s.current]) {
        assert t in s.runq[Level(s.threads[t])];
      }
    } else {
      var p :| 0 <= p < |s.runq| && s.runq[p] != [] && p < Level(s.threads[s.current]);
      assert s.runq[p][0] in s.runq[p];
      assert Ready(s, s.runq[p][0]);
    }
  }

  lemma BestMeans(s: Sched)
    requires Good(s)
    ensures Shaped(s)
    ensures PeerOrNone(s) <==> Best(s.runq, 0) == PRIO_LEVELS || Best(s.runq, 0) <= Level(s.threads[s.current])
  {
    var b, q := Best(s.runq, 0), Level(s.threads[s.current]);
    if b < PRIO_LEVELS {
      var t := s.runq[b][0];
      assert t in s.runq[b];
      assert Ready(s, t) && Level(s.threads[t]) == b;
      forall u | Ready(s, u) ensures Level(s.threads[u]) >= b {
        assert u in s.runq[Level(s.threads[u])];
      }
    } else {
      assert forall p :: 0 <= p < PRIO_LEVELS ==> s.runq[p] == [];
      assert forall u :: Ready(s, u) ==> u in s.runq[Level(s.threads[u])];
    }
  }

  // ---- threads made ready --------------------------------------------------------------------------

  lemma PushIsUrgentExactly(s: Sched, t: Tid)
    requires Good(s) && t in s.threads && t != s.current
    ensures Shaped(s)
    ensures MostUrgent(Push(s, t)) <==> MostUrgent(s) && Level(s.threads[t]) >= Level(s.threads[s.current])
  {
    var r, q := Push(s, t), Level(s.threads[t]);
    hide Level;
    assert r.runq[q] != [];
    assert forall p :: 0 <= p < PRIO_LEVELS && p != q ==> r.runq[p] == s.runq[p];
  }

  /** Due to be woken by a scan of `tids` at time `now`. */
  ghost predicate Due(s: Sched, now: nat, tids: seq<Tid>, t: Tid) {
    t in tids && t in s.threads && s.threads[t].state == Sleeping && now >= s.threads[t].wakeTick
  }

  /** A wake-up scan keeps the running thread the most urgent exactly when none that it wakes is
      more urgent. */
  lemma {:induction false} WakingIsUrgentExactly(s: Sched, now: nat, tids: seq<Tid>)
    requires Good(s)
    ensures Shaped(s)
    ensures MostUrgent(WakeSleepers(s, now, tids)) <==>
      MostUrgent(s) && forall t :: Due(s, now, tids, t) ==> Level(s.threads[t]) >= Level(s.threads[s.current])
    decreases |tids|
  {
    if tids != [] {
      var t, rest := tids[0], tids[1..];
      hide Good, MostUrgent, Level, Push;
      assert forall u :: u in tids <==> u == t || u in rest;
      if t in s.threads && s.threads[t].state == Sleeping && now >= s.threads[t].wakeTick {
        FirstWoken(s, now, tids);
        WakingIsUrgentExactly(Push(s, t), now, rest);
      } else {
        WakingIsUrgentExactly(s, now, rest);
        assert forall u :: Due(s, now, tids, u) <==> Due(s, now, rest, u);
      }
    } else {
      GoodShape(s);
    }
  }

  lemma FirstWoken(s: Sched, now: nat, tids: seq<Tid>)
    requires Good(s) && tids != [] && Due(s, now, tids, tids[0])
    ensures var t, r := tids[0], Push(s, tids[0]);
      && Good(r) && r.current == s.current && r.threads.Keys == s.threads.Keys
      && (MostUrgent(r) <==> MostUrgent(s) && Level(s.threads[t]) >= Level(s.threads[s.current]))
      && (forall u :: Due(s, now, tids, u) <==> u == t || Due(r, now, tids[1..], u))
      && (forall u :: u in s.threads ==> Level(r.threads[u]) == Level(s.threads[u]))
  {
    var t := tids[0];
    PushGood(s, t);
    PushIsUrgentExactly(s, t);
    hide MostUrgent, QueuedExcept, ZombiesListed;
    assert forall u :: u in tids <==> u == t || u in tids[1..];
  }

  // ---- switches ----------------------------------------------------------------------------------

  /** A switch away from a thread that stays ready goes to the best of the others: that is as
      urgent as everything exactly when the others include a peer, or there are none. */
  lemma SwitchIsUrgentExactly(s: Sched)
    requires Good(s)
    ensures PickNext(s).next in PickNext(s).s.threads
    ensures var r := SwitchTo(PickNext(s).s, PickNext(s).next);
      Good(r) && Shaped(r) && (MostUrgent(r) <==> PeerOrNone(s))
  {
    hide QueuedExcept, ZombiesListed, PeerOrNone, SwitchTo, PickNext, Best, Level;
    BestMeans(s);
    SwitchGood(s);
    if Best(s.runq, 0) < PRIO_LEVELS {
      PreemptShape(s);
      var q := Level(s.threads[s.current]);
      assert SwitchTo(PickNext(s).s, PickNext(s).next).runq[q] != [];
    } else {
      assert forall p :: 0 <= p < PRIO_LEVELS ==> s.runq[p] == [];
      NothingToSwitchTo(s);
    }
  }

  lemma ExitIsUrgent(s: Sched)
    requires Good(s) && s.current != s.idle
    ensures Shaped(Exit(s)) && MostUrgent(Exit(s))
  {
    ExitKeepsGood(s);
    CurrentStops(s, s.threads[s.current].(state := Zombie));
    var z := WithState(s, s.current, Zombie);
    assert z == s.(threads := s.threads[s.current := s.threads[s.current].(state := Zombie)]);
    hide QueuedExcept, ZombiesListed, Yield;
    LastSwitchIsUrgent(z);
  }

  lemma LastSwitchIsUrgent(z: Sched)
    requires Leaving(z) && z.threads[z.current].state == Zombie
    ensures Shaped(Yield(z)) && MostUrgent(Yield(z))
  {
    hide QueuedExcept, ZombiesListed, Best, Reap, Level;
    YieldGood(z);
    SomethingIsQueued(z);
    PicksHead(z);
    var p, k := Best(z.runq, 0), PickNext(z);
    HeadIsAtItsLevel(z, p);
    PoppedAbove(z, p);
    ReapQueued(k.s, {k.next}, z.current);
    hide Leaving, Good, Pop;
    var r := Yield(z);
    assert r.runq == k.s.runq && r.current == k.next && r.threads[k.next].priority == z.threads[k.next].priority;
    SamePriority(r.threads[k.next], z.threads[k.next]);
  }

  lemma HeadIsAtItsLevel(s: Sched, p: nat)
    requires Shaped(s) && Queued(s) && p < PRIO_LEVELS && s.runq[p] != []
    ensures s.runq[p][0] in s.threads && Level(s.threads[s.runq[p][0]]) == p
  {
    assert s.runq[p][0] in s.runq[p];
  }

  lemma PoppedAbove(s: Sched, p: nat)
    requires Shaped(s) && p < PRIO_LEVELS && s.runq[p] != [] && forall k :: 0 <= k < p ==> s.runq[k] == []
    ensures forall k :: 0 <= k < p ==> Pop(s, p).runq[k] == []
    ensures ZombiesListed(s) ==> ZombiesListed(Pop(s, p))
  {
  }

  lemma SamePriority(a: Thread, b: Thread)
    requires a.priority == b.priority
    ensures Level(a) == Level(b)
  {
  }

  // ---- every operation ------------------------------------------------------------------------------

  /** Will be ready once the sleepers have been woken. */
  ghost predicate ReadySoon(s: Sched, t: Tid) {
    Ready(s, t) || Due(s, s.ticks + 1, Tids(MAX_THREADS), t)
  }

  /** What can be told before an operation about strict priority after it. */
  ghost predicate StaysUrgent(s: Sched, op: Op)
    requires Shaped(s) && Allowed(s, op)
  {
    var now := Level(s.threads[s.current]);
    match op
    case OpCreate(_, _) => MostUrgent(s)
    case OpCollect => MostUrgent(s)
    case OpAdmit(t) => MostUrgent(s) && (s.threads[t].state == Created ==> Level(s.threads[t]) >= now)
    case OpUnblock(t) => MostUrgent(s) && (s.threads[t].state == Blocked ==> Level(s.threads[t]) >= now)
    case OpBlock => s.current == s.idle ==> MostUrgent(s)
    case OpSleep(n) => s.current == s.idle || n == 0 ==> MostUrgent(s)
    case OpExit => true
    case OpYield => PeerOrNone(s)
    case OpTick => TickStaysUrgent(s)
  }

  /** A tick that switches needs a peer among the threads ready or due, or none of them; one that
      does not switch needs that nothing ready or due is more urgent. */
  ghost predicate TickStaysUrgent(s: Sched)
    requires Shaped(s)
  {
    if Dec(s.threads[s.current].timeSlice) == 0 || s.needResched then
      (forall t :: !ReadySoon(s, t)) || exists t :: ReadySoon(s, t) && Level(s.threads[t]) <= Level(s.threads[s.current])
    else forall t :: ReadySoon(s, t) ==> Level(s.threads[t]) >= Level(s.threads[s.current])
  }

  /** Strict priority holds after an operation if and only if this could be told before. */
  lemma StepIsUrgentExactly(s: Sched, op: Op)
    requires Good(s) && Allowed(s, op)
    ensures Shaped(s) && Shaped(Step(s, op))
    ensures MostUrgent(Step(s, op)) <==> StaysUrgent(s, op)
  {
    GoodShape(s);
    hide *;
    match op
    case OpCreate(t, priority) => QuietIsUrgentExactly(s, op);
    case OpCollect => QuietIsUrgentExactly(s, op);
    case OpAdmit(t) => QuietIsUrgentExactly(s, op);
    case OpUnblock(t) => QuietIsUrgentExactly(s, op);
    case OpTick => LoudStep(s, op); TickIsUrgentExactly(s);
    case OpYield => LoudStep(s, op); BestMeans(s); YieldIsUrgentExactly(s);
    case OpBlock => LoudStep(s, op); BlockIsUrgentExactly(s);
    case OpSleep(n) => LoudStep(s, op); SleepIsUrgentExactly(s, n);
    case OpExit => LoudStep(s, op); ExitIsUrgent(s);
  }

  /** The cases of `Step` and of `StaysUrgent`. */
  lemma LoudStep(s: Sched, op: Op)
    requires Shaped(s) && Allowed(s, op)
    ensures op.OpTick? ==> Step(s, op) == Tick(s, Tids(MAX_THREADS)) && (StaysUrgent(s, op) <==> TickStaysUrgent(s))
    ensures op.OpYield? ==> Step(s, op) == Yield(s) && (StaysUrgent(s, op) <==> PeerOrNone(s))
    ensures op.OpBlock? ==> Step(s, op) == Block(s) && (StaysUrgent(s, op) <==> (s.current == s.idle ==> MostUrgent(s)))
    ensures op.OpSleep? ==>
      Step(s, op) == Sleep(s, op.n) && (StaysUrgent(s, op) <==> (s.current == s.idle || op.n == 0 ==> MostUrgent(s)))
    ensures op.OpExit? ==> Step(s, op) == Exit(s) && StaysUrgent(s, op) && s.current != s.idle
  {
    hide Tick, Yield, Block, Sleep, Exit, TickStaysUrgent, PeerOrNone, MostUrgent;
  }

  lemma QuietIsUrgentExactly(s: Sched, op: Op)
    requires Good(s) && Allowed(s, op) && (op.OpCreate? || op.OpCollect? || op.OpAdmit? || op.OpUnblock?)
    ensures Shaped(s) && Shaped(Step(s, op))
    ensures MostUrgent(Step(s, op)) <==> StaysUrgent(s, op)
  {
    var c := s.threads[s.current];
    hide QueuedExcept, Level, Push;
    match op
    case OpCreate(t, priority) =>
      assert Step(s, op).runq == s.runq && Step(s, op).threads[s.current] == c;
    case OpCollect =>
      assert Step(s, op).runq == s.runq && Step(s, op).threads[s.current] == c;
    case OpAdmit(t) =>
      if s.threads[t].state == Created {
        PushIsUrgentExactly(s, t);
      }
    case OpUnblock(t) =>
      if s.threads[t].state == Blocked {
        PushIsUrgentExactly(s, t);
      }
  }

  lemma BlockIsUrgentExactly(s: Sched)
    requires Good(s)
    ensures Shaped(s) && Shaped(Block(s)) && (MostUrgent(Block(s)) <==> (s.current == s.idle ==> MostUrgent(s)))
  {
    hide QueuedExcept, Leave, ZombiesListed, MostUrgent, Level;
    BlockGood(s);
    if s.current != s.idle {
      CurrentStops(s, s.threads[s.current].(state := Blocked));
      LeavingIsUrgent(WithState(s, s.current, Blocked));
    }
  }

  lemma SleepIsUrgentExactly(s: Sched, n: nat)
    requires Good(s)
    ensures Shaped(s) && Shaped(Sleep(s, n))
    ensures MostUrgent(Sleep(s, n)) <==> (s.current == s.idle || n == 0 ==> MostUrgent(s))
  {
    hide QueuedExcept, Leave, ZombiesListed, MostUrgent, Level;
    SleepGood(s, n);
    if s.current != s.idle && n > 0 {
      var c := s.threads[s.current].(state := Sleeping, wakeTick := s.ticks + n);
      CurrentStops(s, c);
      LeavingIsUrgent(s.(threads := s.threads[s.current := c]));
    }
  }

  lemma TickIsUrgentExactly(s: Sched)
    requires Good(s)
    ensures var r := Tick(s, Tids(MAX_THREADS)); Shaped(s) && Shaped(r) && (MostUrgent(r) <==> TickStaysUrgent(s))
  {
    var w := Ticked(s, Tids(MAX_THREADS));
    TickedGood(s, Tids(MAX_THREADS));
    TickedIs(s);
    TicksMove(w, w.ticks, false);
    var v := w.(needResched := false);
    assert v == w.(ticks := w.ticks, needResched := false);
    SwitchIsUrgentExactly(v);
    UrgentMeans(w);
    TickCases(s);
    hide *;
    TickedTells(s, w, v);
  }

  /** What a tick does after the wake-up scan. */
  lemma TickCases(s: Sched)
    requires Shaped(s)
    ensures var w := Ticked(s, Tids(MAX_THREADS)); var v := w.(needResched := false); var p := PickNext(v);
      && (w.threads[w.current].timeSlice == 0 || w.needResched ==>
           (p.next in p.s.threads ==> Tick(s, Tids(MAX_THREADS)) == SwitchTo(p.s, p.next)))
      && (w.threads[w.current].timeSlice != 0 && !w.needResched ==> Tick(s, Tids(MAX_THREADS)) == w)
  {
    hide WakeSleepers, Tids, SwitchTo, PickNext;
  }

  lemma TickedTells(s: Sched, w: Sched, v: Sched)
    requires Shaped(s) && Shaped(w) && v == w.(needResched := false) && w.current == s.current
    requires w.needResched == s.needResched && w.threads[w.current].timeSlice == Dec(s.threads[s.current].timeSlice)
    requires forall t :: Ready(w, t) <==> ReadySoon(s, t)
    requires forall t :: t in s.threads ==> t in w.threads && Level(w.threads[t]) == Level(s.threads[t])
    ensures TickStaysUrgent(s) <==>
      if w.threads[w.current].timeSlice == 0 || w.needResched then PeerOrNone(v)
      else forall t :: Ready(w, t) ==> Level(w.threads[t]) >= Level(w.threads[w.current])
  {
    hide Due, Level, Tids;
    assert forall t :: Ready(v, t) <==> Ready(w, t);
    assert forall t :: ReadySoon(s, t) ==> t in s.threads by {
      assert forall t :: Ready(s, t) ==> t in s.threads;
      DueIsThere(s);
    }
  }

  lemma DueIsThere(s: Sched)
    ensures forall t :: ReadySoon(s, t) ==> t in s.threads
  {
    hide Tids;
  }

  /** Where a tick decides whether to switch, the threads ready are those that were ready or due. */
  lemma TickedIs(s: Sched)
    requires Good(s)
    ensures var w := Ticked(s, Tids(MAX_THREADS));
      && Shaped(s) && Shaped(w) && w.current == s.current && w.needResched == s.needResched
      && w.threads[w.current].timeSlice == Dec(s.threads[s.current].timeSlice)
      && (forall t :: Ready(w, t) <==> ReadySoon(s, t))
      && (forall t :: t in s.threads ==> t in w.threads && Level(w.threads[t]) == Level(s.threads[t]))
  {
    TickedFor(s, Tids(MAX_THREADS));
    hide Ready, Due, Ticked, Level, Tids, Good;
  }

  lemma TickedFor(s: Sched, tids: seq<Tid>)
    requires Good(s)
    ensures var w := Ticked(s, tids);
      && Shaped(s) && Shaped(w) && w.current == s.current && w.needResched == s.needResched
      && w.threads[w.current].timeSlice == Dec(s.threads[s.current].timeSlice)
      && (forall t :: Ready(w, t) <==> Ready(s, t) || Due(s, s.ticks + 1, tids, t))
      && (forall t :: t in s.threads ==> t in w.threads && Level(w.threads[t]) == Level(s.threads[t]))
  {
    var s0 := s.(ticks := s.ticks + 1);
    WakesExactlyTheDue(s0, s.ticks + 1, tids);
    WakingKeepsResched(s0, s.ticks + 1, tids);
    hide WakeSleepers, QueuedExcept, ZombiesListed;
  }

  lemma {:induction false} WakingKeepsResched(s: Sched, now: nat, tids: seq<Tid>)
    requires Shaped(s)
    ensures WakeSleepers(s, now, tids).needResched == s.needResched
    decreases |tids|
  {
    if tids != [] {
      var t := tids[0];
      var s1 := if t in s.threads && s.threads[t].state == Sleeping && now >= s.threads[t].wakeTick
        then Push(s, t) else s;
      WakingKeepsResched(s1, now, tids[1..]);
    }
  }
}
