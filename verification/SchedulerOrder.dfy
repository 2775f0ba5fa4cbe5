/** Who runs next: whenever the processor changes hands it goes to a thread of the best priority
    there is, and among threads of one priority nobody overtakes. */
module SchedulerOrder {
  import opened Arithmetic
  import opened Sequences
  import opened Scheduling
  import opened SchedulerInvariant
  import opened SchedulerRuns
  import opened SchedulerTime

  /** Numerically small is urgent; everything from 7 on is the level of idle. */
  function Urgency(t: Thread): nat {
    if t.priority < 7 then t.priority else 7
  }

  // ---- what a step does to the queues ---------------------------------------------------------------

  /** Each queue loses at most its head, to the processor, and grows at its end. */
  ghost predicate QueuesMove(s: Sched, r: Sched) {
    && |s.runq| == |r.runq| == 8
    && (forall p :: 0 <= p < 8 ==> LosesHead(s.runq[p], r.runq[p], r.current != s.current, r.current))
  }

  predicate LosesHead(a: seq<Tid>, b: seq<Tid>, goes: bool, head: Tid) {
    a <= b || (goes && a != [] && a[0] == head && a[1..] <= b)
  }

  /** The processor stays, or goes to the head of the first queue that is not empty. */
  ghost predicate GoesToHead(s: Sched, r: Sched)
    requires |s.runq| == 8
  {
    r.current == s.current ||
    exists p :: 0 <= p < 8 && s.runq[p] != [] && s.runq[p][0] == r.current && forall k :: 0 <= k < p ==> s.runq[k] == []
  }

  lemma PreemptAppends(s: Sched, next: Tid)
    requires Picking(s, next) && s.threads[s.current].state == Running
    ensures var r := SwitchTo(s, next);
      r.current == next && |r.runq| == |s.runq| == 8 && forall p :: 0 <= p < 8 ==> s.runq[p] <= r.runq[p]
  {
    hide ZombiesListed, Level;
  }

  lemma ExitAppends(s: Sched, next: Tid)
    requires Picking(s, next) && s.threads[s.current].state == Zombie
    ensures var r := SwitchTo(s, next);
      r.current == next && |r.runq| == |s.runq| == 8 && forall p :: 0 <= p < 8 ==> s.runq[p] <= r.runq[p]
  {
    ExitGood(s, next);
    ReapQueues(s, next);
    hide QueuedExcept, ZombiesListed, Reap, Good;
  }

  lemma PickQueues(s: Sched)
    requires Leaving(s) && Best(s.runq, 0) < PRIO_LEVELS
    ensures var v, next := PickNext(s).s, PickNext(s).next;
      && Picking(v, next) && next != s.current && v.current == s.current && v.threads == s.threads
      && |s.runq| == |v.runq| == 8
      && (forall p :: 0 <= p < 8 ==> LosesHead(s.runq[p], v.runq[p], true, next))
      && (exists p :: 0 <= p < 8 && s.runq[p] != [] && s.runq[p][0] == next && forall k :: 0 <= k < p ==> s.runq[k] == [])
  {
    hide Best, QueuedExcept, ZombiesListed;
    PicksHead(s);
    PickingAfterPick(s);
    hide Picking;
  }

  lemma SwitchQueues(s: Sched)
    requires Leaving(s) && s.threads[s.current].state in {Running, Zombie}
    ensures var r := SwitchTo(PickNext(s).s, PickNext(s).next);
      QueuesMove(s, r) && GoesToHead(s, r)
  {
    hide Best, Picking;
    PicksHead(s);
    if Best(s.runq, 0) < PRIO_LEVELS {
      PickQueues(s);
      var v, next := PickNext(s).s, PickNext(s).next;
      hide PickNext, SwitchTo, Leaving;
      if s.threads[s.current].state == Zombie {
        ExitAppends(v, next);
      } else {
        PreemptAppends(v, next);
      }
      var r := SwitchTo(v, next);
      forall p | 0 <= p < 8
        ensures LosesHead(s.runq[p], r.runq[p], true, next)
      {
        assert LosesHead(s.runq[p], v.runq[p], true, next) && v.runq[p] <= r.runq[p];
      }
    }
  }

  lemma LeaveQueues(s: Sched)
    requires Leaving(s) && s.threads[s.current].state in {Blocked, Sleeping}
    ensures QueuesMove(s, Leave(s)) && GoesToHead(s, Leave(s))
  {
    hide Best, QueuedExcept, ZombiesListed;
    SomethingIsQueued(s);
    PicksHead(s);
  }

  // ---- between the change and the switch ------------------------------------------------------------

  lemma {:induction false} WakingAppends(s: Sched, now: nat, tids: seq<Tid>)
    requires Shaped(s)
    ensures var r := WakeSleepers(s, now, tids); forall p :: 0 <= p < 8 ==> s.runq[p] <= r.runq[p]
    decreases |tids|
  {
    if tids != [] {
      var t := tids[0];
      var due := t in s.threads && s.threads[t].state == Sleeping && now >= s.threads[t].wakeTick;
      hide Level;
      WakingAppends(if due then Push(s, t) else s, now, tids[1..]);
    }
  }

  /** Up to the switch the queues only grow, and then the step switches or is over. */
  ghost predicate Grown(s: Sched, m: Sched, r: Sched) {
    && |s.runq| == |m.runq| == 8 && m.current == s.current
    && (forall p :: 0 <= p < 8 ==> s.runq[p] <= m.runq[p])
    && (r == m || (QueuesMove(m, r) && GoesToHead(m, r)))
  }

  lemma TickedAppends(s: Sched)
    requires Good(s)
    ensures var m := Between(s, OpTick);
      |s.runq| == |m.runq| == 8 && m.current == s.current && forall p :: 0 <= p < 8 ==> s.runq[p] <= m.runq[p]
  {
    hide Tids, WakeSleepers, QueuedExcept, ZombiesListed;
    WakingAppends(s.(ticks := s.ticks + 1), s.ticks + 1, Tids(MAX_THREADS));
    BetweenIsGood(s);
  }

  lemma TickGrows(s: Sched)
    requires Good(s)
    ensures Grown(s, Between(s, OpTick), Step(s, OpTick))
  {
    TickedAppends(s);
    TickEnds(s);
    BetweenIsGood(s);
    var m := Between(s, OpTick);
    hide Step, Between, Ticked, PickNext, SwitchTo, QueuesMove, GoesToHead;
    assert m.threads[m.current].state == Running;
    SwitchQueues(m);
    hide Good;
  }

  lemma YieldGrows(s: Sched)
    requires Good(s)
    ensures Grown(s, Between(s, OpYield), Step(s, OpYield))
  {
    YieldIsASwitch(s);
    SwitchQueues(Between(s, OpYield));
    hide QueuedExcept, ZombiesListed, PickNext, SwitchTo, QueuesMove, GoesToHead;
  }

  lemma ExitGrows(s: Sched)
    requires Good(s) && s.current != s.idle
    ensures Grown(s, Between(s, OpExit), Step(s, OpExit))
  {
    CurrentStops(s, s.threads[s.current].(state := Zombie));
    SwitchQueues(Between(s, OpExit));
    ExitKeepsGood(s);
    SwitchGood(Between(s, OpExit));
    hide QueuedExcept, ZombiesListed, PickNext, SwitchTo, QueuesMove, GoesToHead;
  }

  lemma LeavingGrows(s: Sched, op: Op)
    requires Good(s) && (op.OpBlock? || op.OpSleep?)
    ensures Grown(s, Between(s, op), Step(s, op))
  {
    hide QueuedExcept, ZombiesListed, Leave, QueuesMove, GoesToHead;
    var m := Between(s, op);
    if m != s {
      CurrentStops(s, m.threads[s.current]);
      LeaveQueues(m);
    }
  }

  lemma StepGrows(s: Sched, op: Op)
    requires Good(s) && Allowed(s, op)
    ensures Grown(s, Between(s, op), Step(s, op))
  {
    match op
    case OpTick => hide *; TickGrows(s);
    case OpYield => hide *; YieldGrows(s);
    case OpBlock => hide *; LeavingGrows(s, op);
    case OpSleep(n) => hide *; LeavingGrows(s, op);
    case OpExit => hide Good, Step, Between, Grown; ExitGrows(s);
    case _ =>
  }

  lemma StoppedLeaves(s: Sched, op: Op)
    requires Good(s) && (op.OpBlock? || op.OpSleep? || (op.OpExit? && s.current != s.idle))
    ensures Leaving(Between(s, op))
  {
    hide QueuedExcept, ZombiesListed;
    var m := Between(s, op);
    if m != s {
      CurrentStops(s, m.threads[s.current]);
    }
  }

  lemma BetweenLeaves(s: Sched, op: Op)
    requires Good(s) && Allowed(s, op)
    ensures Leaving(Between(s, op))
  {
    if op.OpBlock? || op.OpSleep? || op.OpExit? {
      hide Good, Between;
      StoppedLeaves(s, op);
    } else if op.OpTick? {
      BetweenIsGood(s);
      GoodIsLeaving(Between(s, op));
      hide Good;
    } else if op.OpYield? {
      hide QueuedExcept, ZombiesListed;
      YieldIsASwitch(s);
    } else {
      StepGood(s, op);
      GoodIsLeaving(Step(s, op));
      hide Good, Step, Leaving;
    }
  }

  // ---- the most urgent runs next --------------------------------------------------------------------

  lemma HeadIsMostUrgent(m: Sched, r: Sched, t: Tid)
    requires Leaving(m) && GoesToHead(m, r) && r.current != m.current
    requires t in m.threads && m.threads[t].state == Runnable
    ensures r.current in m.threads && Urgency(m.threads[r.current]) <= Urgency(m.threads[t])
  {
    var p :| 0 <= p < 8 && m.runq[p] != [] && m.runq[p][0] == r.current && forall k :: 0 <= k < p ==> m.runq[k] == [];
    assert m.runq[p][0] in m.runq[p];
    assert t in m.runq[Scheduling.Level(m.threads[t])];
  }

  /** Whenever the processor changes hands, no thread that was ready for it is more urgent than
      the one that gets it. */
  lemma MostUrgentIsNext(s: Sched, op: Op, t: Tid)
    requires Good(s) && OnTime(s) && Allowed(s, op)
    requires var r := Step(s, op); r.current != s.current && t != s.current && Is(r, t, Runnable)
    ensures var r := Step(s, op);
      r.current in r.threads && Urgency(r.threads[r.current]) <= Urgency(r.threads[t])
  {
    StepMoves(s, op);
    StepGrows(s, op);
    BetweenLeaves(s, op);
    var m, r := Between(s, op), Step(s, op);
    CurrentIsRunning(s);
    hide Step, Between, Good, Elsewhere, OfCurrent, GoesToHead, QueuesMove, Leaving, Touched;
    LeavesFrom(s, op, m);
    HeadIsMostUrgent(m, r, t);
  }

  lemma LeavesFrom(s: Sched, op: Op, m: Sched)
    requires s.current in s.threads && Touched(s, op, m)
    ensures m.current == s.current
  {
  }

  // ---- nobody overtakes -----------------------------------------------------------------------------

  predicate Before(q: seq<Tid>, t: Tid, u: Tid) {
    forall x, y :: 0 <= x < |q| && 0 <= y < |q| && q[x] == t && q[y] == u ==> x < y
  }

  lemma StaysBefore(a: seq<Tid>, b: seq<Tid>, goes: bool, h: Tid, t: Tid, u: Tid)
    requires Distinct(b) && t in a && t != u && Before(a, t, u)
    requires LosesHead(a, b, goes, h) && (goes ==> t != h)
    ensures t in b && Before(b, t, u)
  {
    var x :| 0 <= x < |a| && a[x] == t;
    var d := if a <= b then 0 else 1;
    assert b[x - d] == t;
    forall y, z | 0 <= y < |b| && 0 <= z < |b| && b[y] == t && b[z] == u
      ensures y < z
    {
      assert y == x - d;
      if z + d < |a| {
        assert a[z + d] == u;
      }
    }
  }

  /** `t` is ready and `u` will not run before it unless it is of another priority. */
  ghost predicate Ahead(s: Sched, t: Tid, u: Tid) {
    && Is(s, t, Runnable) && |s.runq| == 8
    && (u in s.threads && Urgency(s.threads[u]) == Urgency(s.threads[t]) ==>
          u != s.current && (s.threads[u].state == Runnable ==> Before(s.runq[Urgency(s.threads[t])], t, u)))
  }

  /** A queue holds the ready threads of its level, each once. */
  lemma QueueHolds(s: Sched, p: nat)
    requires Leaving(s) && p < 8
    ensures |s.runq| == 8 && Distinct(s.runq[p])
    ensures forall u :: u in s.runq[p] <==> Is(s, u, Runnable) && Urgency(s.threads[u]) == p
  {
  }

  /** The middle of a step does not change who goes before whom. */
  lemma GrownKeepsOrder(s: Sched, m: Sched, r: Sched, p: nat, t: Tid, u: Tid)
    requires Leaving(s) && Leaving(m) && Leaving(r) && Grown(s, m, r) && p < 8 && t != u
    requires Is(s, t, Runnable) && Urgency(s.threads[t]) == p && t != r.current
    requires Before(s.runq[p], t, u)
    ensures |r.runq| == 8 && Before(r.runq[p], t, u)
  {
    QueueHolds(s, p);
    QueueHolds(m, p);
    QueueHolds(r, p);
    hide Leaving, Before, GoesToHead, Urgency, Is;
    StaysBefore(s.runq[p], m.runq[p], false, t, t, u);
    if r != m {
      StaysBefore(m.runq[p], r.runq[p], r.current != s.current, r.current, t, u);
    }
  }

  /** The head of the queue is not behind anybody. */
  lemma HeadIsNotBehind(s: Sched, m: Sched, r: Sched, p: nat, t: Tid)
    requires Leaving(s) && Leaving(m) && Grown(s, m, r) && r.current != s.current && p < 8
    requires Is(s, t, Runnable) && Urgency(s.threads[t]) == p && t != r.current
    requires r.current in m.threads && Urgency(m.threads[r.current]) == p
    ensures Is(s, r.current, Runnable) && !Before(s.runq[p], t, r.current)
  {
    var k :| 0 <= k < 8 && m.runq[k] != [] && m.runq[k][0] == r.current;
    QueueHolds(m, k);
    QueueHolds(s, p);
    hide Leaving, QueuesMove;
    assert m.runq[k][0] in m.runq[k];
    assert s.runq[p][0] == r.current && s.runq[p][0] in s.runq[p];
    var x :| 0 <= x < |s.runq[p]| && s.runq[p][x] == t;
  }

  /** No operation changes a priority, and a thread that was not there is not ready. */
  lemma PrioritiesStay(s: Sched, op: Op, u: Tid)
    requires Good(s) && OnTime(s) && Allowed(s, op) && u in Step(s, op).threads
    ensures var m, r := Between(s, op), Step(s, op);
      && u in m.threads && Urgency(r.threads[u]) == Urgency(m.threads[u])
      && (u in s.threads ==> Urgency(r.threads[u]) == Urgency(s.threads[u]))
      && (u !in s.threads ==> r.threads[u].state == Created && u != r.current)
      && (u == r.current ==> r.threads[u].state == Running)
  {
    var m, r := Between(s, op), Step(s, op);
    CurrentIsRunning(s);
    StepMoves(s, op);
    StepGood(s, op);
    CurrentIsRunning(r);
    hide Good, OnTime, Step, Between, Touched, Switched, Urgency;
    SwitchKeepsPriority(m, r, u);
    TouchKeepsPriority(s, op, m, u);
  }

  lemma SwitchKeepsPriority(m: Sched, r: Sched, u: Tid)
    requires m.current in m.threads && Switched(m, r) && u in r.threads
    ensures u in m.threads && Urgency(r.threads[u]) == Urgency(m.threads[u])
    ensures m.threads[u].state == Created ==> u != r.current || r == m
    ensures m.threads[u].state == Created && u != m.current ==> r.threads[u].state == Created
  {
  }

  lemma TouchKeepsPriority(s: Sched, op: Op, m: Sched, u: Tid)
    requires s.current in s.threads && Touched(s, op, m) && u in m.threads
    ensures u in s.threads ==> Urgency(m.threads[u]) == Urgency(s.threads[u])
    ensures u !in s.threads ==> m.threads[u].state == Created && u != m.current
  {
  }

  lemma AheadStep(s: Sched, op: Op, t: Tid, u: Tid)
    requires Good(s) && OnTime(s) && Allowed(s, op) && t != u
    requires Ahead(s, t, u) && Is(Step(s, op), t, Runnable)
    ensures Ahead(Step(s, op), t, u)
  {
    var m, r, p := Between(s, op), Step(s, op), Urgency(s.threads[t]);
    StepGood(s, op);
    StepGrows(s, op);
    BetweenLeaves(s, op);
    GoodIsLeaving(s);
    GoodIsLeaving(r);
    QueueHolds(r, p);
    QueueHolds(s, p);
    PrioritiesStay(s, op, t);
    hide Good, OnTime, Step, Between, Grown, Urgency, Leaving;
    if u in r.threads && Urgency(r.threads[u]) == p {
      PrioritiesStay(s, op, u);
      if u == r.current {
        HandoverIsNotBehind(s, m, r, p, t, u);
      } else {
        GrownKeepsOrder(s, m, r, p, t, u);
      }
    }
  }

  lemma HandoverIsNotBehind(s: Sched, m: Sched, r: Sched, p: nat, t: Tid, u: Tid)
    requires Leaving(s) && Leaving(m) && Grown(s, m, r) && p < 8 && t != u && u == r.current
    requires Is(s, t, Runnable) && Urgency(s.threads[t]) == p
    requires u in s.threads && Urgency(s.threads[u]) == p && u in m.threads && Urgency(m.threads[u]) == p
    ensures !Ahead(s, t, u)
  {
    if u != s.current {
      HeadIsNotBehind(s, m, r, p, t);
    }
  }

  /** First come, first served: while a thread waits for the processor, no thread of its own
      priority that came later gets it. */
  lemma {:induction false} NobodyOvertakes(states: seq<Sched>, ops: seq<Op>, i: nat, j: nat, t: Tid, u: Tid)
    requires Runs(states, ops) && i <= j < |states| && t != u
    requires forall k :: i <= k <= j ==> Is(states[k], t, Runnable)
    requires u != states[i].current && !Is(states[i], u, Runnable)
    ensures Ahead(states[j], t, u)
    ensures states[j].current == u ==>
      u in states[j].threads && Urgency(states[j].threads[u]) != Urgency(states[j].threads[t])
  {
    hide Good, OnTime, Step, Allowed;
    if i < j {
      NobodyOvertakes(states, ops, i, j - 1, t, u);
      RunStep(states, ops, j - 1);
      AheadStep(states[j - 1], ops[j - 1], t, u);
    }
    RunsStayGood(states, ops, j);
    CurrentIsRunning(states[j]);
    QueueShape(states[j]);
  }

  lemma QueueShape(s: Sched)
    requires Good(s)
    ensures |s.runq| == 8
  {
  }
}
