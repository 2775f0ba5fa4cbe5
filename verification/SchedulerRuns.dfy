/** Whole runs of the scheduler: the invariant, sleepers woken on time, what strict priority
    does and does not mean here, and round-robin fairness within a level. */
module SchedulerRuns {
  import opened Arithmetic
  import opened Sequences
  import opened Scheduling
  import opened SchedulerInvariant

  const MAX_THREADS: nat := 1024

  function Tids(n: nat): (r: seq<Tid>)
    ensures |r| == n && forall k :: 0 <= k < n ==> r[k] == k + 1
  {
    if n == 0 then [] else Tids(n - 1) + [n]
  }

  datatype Op =
    | OpCreate(t: Tid, priority: nat) | OpAdmit(t: Tid) | OpUnblock(t: Tid)
    | OpTick | OpYield | OpBlock | OpSleep(n: nat) | OpExit | OpCollect

  /** What the callers owe: a free slot for a new thread, a live thread to admit or unblock,
      and that the idle thread never exits. */
  predicate Allowed(s: Sched, op: Op) {
    match op
    case OpCreate(t, _) => 1 <= t <= MAX_THREADS && t !in s.threads
    case OpAdmit(t) => t in s.threads
    case OpUnblock(t) => t in s.threads
    case OpExit => s.current != s.idle
    case _ => true
  }

  function Step(s: Sched, op: Op): Sched
    requires Shaped(s) && Allowed(s, op)
  {
    match op
    case OpCreate(t, priority) => Create(s, t, priority)
    case OpAdmit(t) => Admit(s, t)
    case OpUnblock(t) => Unblock(s, t)
    case OpTick => Tick(s, Tids(MAX_THREADS))
    case OpYield => Yield(s)
    case OpBlock => Block(s)
    case OpSleep(n) => Sleep(s, n)
    case OpExit => Exit(s)
    case OpCollect => CollectZombies(s)
  }

  lemma StepGood(s: Sched, op: Op)
    requires Good(s) && Allowed(s, op)
    ensures Good(Step(s, op))
  {
    match op
    case OpCreate(t, priority) => CreateGood(s, t, priority);
    case OpAdmit(t) => AdmitGood(s, t);
    case OpUnblock(t) => UnblockGood(s, t);
    case OpTick => hide *; TickGood(s, Tids(MAX_THREADS));
    case OpYield => YieldGood(s);
    case OpBlock => BlockGood(s);
    case OpSleep(n) => SleepGood(s, n);
    case OpExit => ExitKeepsGood(s);
    case OpCollect => CollectGood(s);
  }

  // ---- sleepers ---------------------------------------------------------------------------------

  /** No thread has slept past its time, and every thread has an id the wake-up scan visits. */
  ghost predicate OnTime(s: Sched) {
    && (forall t :: t in s.threads ==> 1 <= t <= MAX_THREADS)
    && (forall t :: t in s.threads && s.threads[t].state == Sleeping ==> s.ticks < s.threads[t].wakeTick)
  }

  function Woken(t: Thread, now: nat, scanned: bool): Thread {
    if scanned && t.state == Sleeping && now >= t.wakeTick then t.(state := Runnable) else t
  }

  /** What the scan does to every thread: those of `tids` that are due are made runnable, and
      nothing else changes but the queue. */
  lemma {:induction false} WakesExactlyTheDue(s: Sched, now: nat, tids: seq<Tid>)
    requires Shaped(s)
    ensures var r := WakeSleepers(s, now, tids);
      && r.threads.Keys == s.threads.Keys && r.ticks == s.ticks
      && r.current == s.current
      && (forall t :: t in s.threads ==> r.threads[t] == Woken(s.threads[t], now, t in tids))
    decreases |tids|
  {
    if tids != [] {
      var t := tids[0];
      var s1 := if t in s.threads && s.threads[t].state == Sleeping && now >= s.threads[t].wakeTick
        then Push(s, t) else s;
      assert forall u :: u in tids <==> u == t || u in tids[1..];
      WakesExactlyTheDue(s1, now, tids[1..]);
    }
  }

  /** `r` changes no thread into a sleeper. */
  ghost predicate NoNewSleeper(s: Sched, r: Sched) {
    && r.ticks == s.ticks
    && (forall t :: t in r.threads ==> t in s.threads)
    && (forall t :: t in r.threads && r.threads[t].state == Sleeping ==> r.threads[t] == s.threads[t])
  }

  lemma PickNextSleepers(s: Sched)
    requires Shaped(s)
    ensures PickNext(s).s.ticks == s.ticks
  {
    hide Best;
  }

  lemma SwitchSleepers(s: Sched, next: Tid)
    requires Shaped(s) && next in s.threads
    ensures NoNewSleeper(s, SwitchTo(s, next))
  {
    hide Holding, Without, Level;
  }

  lemma PickedSleepers(s: Sched)
    requires Shaped(s)
    ensures var p := PickNext(s); p.next in p.s.threads ==> NoNewSleeper(s, SwitchTo(p.s, p.next))
    ensures NoNewSleeper(s, Leave(s)) && NoNewSleeper(s, PickNext(s).s)
  {
    PickNextSleepers(s);
    var p := PickNext(s);
    hide SwitchTo, PickNext;
    if p.next in p.s.threads {
      SwitchSleepers(p.s, p.next);
    }
  }

  lemma TickOnTime(s: Sched)
    requires Good(s) && OnTime(s)
    ensures OnTime(Tick(s, Tids(MAX_THREADS)))
  {
    var tids := Tids(MAX_THREADS);
    var w := Ticked(s, tids);
    TickedGood(s, tids);
    TickedOnTime(s);
    var v := w.(needResched := false);
    hide Tids, WakeSleepers, PickNext, SwitchTo, QueuedExcept, Good;
    assert Shaped(w);
    PickedSleepers(v);
  }

  lemma WakingIsOnTime(s: Sched)
    requires Shaped(s) && OnTime(s)
    ensures OnTime(WakeSleepers(s.(ticks := s.ticks + 1), s.ticks + 1, Tids(MAX_THREADS)))
  {
    var tids, s0 := Tids(MAX_THREADS), s.(ticks := s.ticks + 1);
    WakesExactlyTheDue(s0, s.ticks + 1, tids);
    hide WakeSleepers, Tids, Shaped;
    var r := WakeSleepers(s0, s.ticks + 1, tids);
    forall t | t in r.threads && r.threads[t].state == Sleeping
      ensures r.ticks < r.threads[t].wakeTick
    {
      assert tids[t - 1] == t;
      assert r.threads[t] == Woken(s.threads[t], s.ticks + 1, true);
    }
  }

  lemma TickedOnTime(s: Sched)
    requires Shaped(s) && OnTime(s)
    ensures OnTime(Ticked(s, Tids(MAX_THREADS)))
  {
    hide WakeSleepers, Tids;
    WakingIsOnTime(s);
  }

  lemma StepOnTime(s: Sched, op: Op)
    requires Good(s) && Allowed(s, op) && OnTime(s)
    ensures OnTime(Step(s, op))
  {
    hide Tids, PickNext, SwitchTo, Tick, WakeSleepers, QueuedExcept, Leave, ZombiesListed;
    match op
    case OpTick => hide Good; TickOnTime(s);
    case OpYield =>
      var c := s.threads[s.current];
      PickedSleepers(s.(threads := s.threads[s.current := c.(timeSlice := TIME_SLICE_TICKS)]));
      PickedSleepers(s);
    case OpBlock => PickedSleepers(WithState(s, s.current, Blocked));
    case OpSleep(n) =>
      var c := s.threads[s.current];
      PickedSleepers(s.(threads := s.threads[s.current := c.(state := Sleeping, wakeTick := s.ticks + n)]));
    case OpExit => PickedSleepers(WithState(s, s.current, Zombie));
    case _ =>
  }

  // ---- every run ------------------------------------------------------------------------------------

  /** After `sched_init` and the admission of idle: the boot context runs, idle is queued. */
  function Booted(boot: Tid, idle: Tid, priority: nat): Sched
    requires boot != idle
  {
    Sched(map[boot := Thread(Running, priority, TIME_SLICE_TICKS, 0, 0, 0),
              idle := Thread(Runnable, PRIO_IDLE, TIME_SLICE_TICKS, 0, 0, 0)],
          [[], [], [], [], [], [], [], [idle]], [0, 0, 0, 0, 0, 0, 0, 1],
          boot, idle, 0, 0, false, [])
  }

  lemma BootedGood(boot: Tid, idle: Tid, priority: nat)
    requires boot != idle && 1 <= boot <= MAX_THREADS && 1 <= idle <= MAX_THREADS
    ensures Good(Booted(boot, idle, priority)) && OnTime(Booted(boot, idle, priority))
  {
  }

  ghost predicate Runs(states: seq<Sched>, ops: seq<Op>) {
    && |states| == |ops| + 1
    && (exists boot: Tid, idle: Tid, priority: nat :: boot != idle && 1 <= boot <= MAX_THREADS && 1 <= idle <= MAX_THREADS
          && states[0] == Booted(boot, idle, priority))
    && (forall i :: 0 <= i < |ops| ==>
          Shaped(states[i]) && Allowed(states[i], ops[i]) && states[i + 1] == Step(states[i], ops[i]))
  }

  /** In every state of every run: exactly one thread runs and is on no queue, RUNNABLE threads
      are queued once at their level, idle is current or queued, no sleeper is overdue. */
  lemma {:induction false} RunsStayGood(states: seq<Sched>, ops: seq<Op>, i: nat)
    requires Runs(states, ops) && i < |states|
    ensures Good(states[i]) && OnTime(states[i])
  {
    hide Good, OnTime, Step, Allowed, Booted, Shaped;
    if i == 0 {
      var boot: Tid, idle: Tid, priority: nat :| boot != idle && 1 <= boot <= MAX_THREADS && 1 <= idle <= MAX_THREADS
        && states[0] == Booted(boot, idle, priority);
      BootedGood(boot, idle, priority);
    } else {
      RunsStayGood(states, ops, i - 1);
      StepGood(states[i - 1], ops[i - 1]);
      StepOnTime(states[i - 1], ops[i - 1]);
    }
  }

  // ---- strict priority ------------------------------------------------------------------------------

  /** Nothing on the queue is more urgent than the thread that runs. */
  ghost predicate MostUrgent(s: Sched)
    requires Shaped(s)
  {
    forall p :: 0 <= p < |s.runq| && s.runq[p] != [] ==> p >= Level(s.threads[s.current])
  }

  /** What a switch away from a still-running thread does to the queue and the processor. */
  lemma PreemptShape(s: Sched)
    requires Good(s) && Best(s.runq, 0) < PRIO_LEVELS
    ensures var p := Best(s.runq, 0); var q := Level(s.threads[s.current]);
      var r := SwitchTo(PickNext(s).s, PickNext(s).next);
      var runq1 := s.runq[p := s.runq[p][1..]];
      && Shaped(r) && r.current == s.runq[p][0] && r.threads.Keys == s.threads.Keys && r.idle == s.idle
      && r.runq == runq1[q := runq1[q] + [s.current]]
      && r.threads[r.current].priority == s.threads[r.current].priority
      && Level(s.threads[r.current]) == p && Level(r.threads[r.current]) == p
      && r.threads[s.current].priority == s.threads[s.current].priority
  {
    PicksHead(s);
    assert s.runq[Best(s.runq, 0)][0] in s.runq[Best(s.runq, 0)];
    hide Best;
  }

  lemma YieldIsASwitch(s: Sched)
    requires Good(s)
    ensures var v := s.(threads := s.threads[s.current := s.threads[s.current].(timeSlice := TIME_SLICE_TICKS)]);
      && Good(v) && PickNext(v).next in PickNext(v).s.threads
      && Yield(s) == SwitchTo(PickNext(v).s, PickNext(v).next)
  {
    var v := s.(threads := s.threads[s.current := s.threads[s.current].(timeSlice := TIME_SLICE_TICKS)]);
    CurrentRuns(s, s.threads[s.current].(timeSlice := TIME_SLICE_TICKS));
    hide QueuedExcept, SwitchTo, PickNext, ZombiesListed;
    SwitchGood(v);
  }

  /** What a yield does to the queues and the processor when something is queued. */
  lemma YieldShape(s: Sched)
    requires Good(s) && Best(s.runq, 0) < PRIO_LEVELS
    ensures var p := Best(s.runq, 0); var q := Level(s.threads[s.current]);
      var r := Yield(s); var runq1 := s.runq[p := s.runq[p][1..]];
      && Good(r) && r.current == s.runq[p][0]
      && r.runq == runq1[q := runq1[q] + [s.current]]
      && Level(r.threads[r.current]) == p
  {
    var v := s.(threads := s.threads[s.current := s.threads[s.current].(timeSlice := TIME_SLICE_TICKS)]);
    YieldIsASwitch(s);
    YieldGood(s);
    hide Yield, SwitchTo, QueuedExcept, ZombiesListed, PickNext, Best;
    PreemptShape(v);
  }

  /** Yielding keeps strict priority between the levels exactly when nothing is queued or
      something at least as urgent as the yielding thread is: the yielding thread itself does
      not compete. */
  lemma YieldIsUrgentExactly(s: Sched)
    requires Good(s)
    ensures Shaped(Yield(s))
    ensures MostUrgent(Yield(s)) <==>
      Best(s.runq, 0) == PRIO_LEVELS || Best(s.runq, 0) <= Level(s.threads[s.current])
  {
    hide SwitchTo, QueuedExcept, ZombiesListed, PickNext, Level;
    YieldGood(s);
    if Best(s.runq, 0) < PRIO_LEVELS {
      hide Yield;
      YieldShape(s);
      var q := Level(s.threads[s.current]);
      assert Yield(s).runq[q] != [];
    } else {
      assert forall p :: 0 <= p < PRIO_LEVELS ==> s.runq[p] == [];
      YieldIsASwitch(s);
      NothingToSwitchTo(s.(threads := s.threads[s.current := s.threads[s.current].(timeSlice := TIME_SLICE_TICKS)]));
      hide Yield;
    }
  }

  lemma NothingToSwitchTo(s: Sched)
    requires Good(s) && Best(s.runq, 0) == PRIO_LEVELS
    ensures PickNext(s) == Picked(s.current, s) && SwitchTo(s, s.current) == s
  {
  }

  /** Blocking, sleeping and exiting always hand over to a thread as urgent as any queued. */
  lemma LeavingIsUrgent(s: Sched)
    requires Leaving(s) && s.threads[s.current].state in {Blocked, Sleeping}
    ensures MostUrgent(Leave(s))
  {
    LeaveGood(s);
    SomethingIsQueued(s);
    PicksHead(s);
    assert s.runq[Best(s.runq, 0)][0] in s.runq[Best(s.runq, 0)];
    hide Best;
  }

  /** The most urgent thread there can be yields to idle and then waits behind it. */
  lemma YieldPrefersIdle(boot: Tid, idle: Tid)
    requires boot != idle && 1 <= boot <= MAX_THREADS && 1 <= idle <= MAX_THREADS
    ensures var s := Booted(boot, idle, 0);
      Good(s) && MostUrgent(s) && Yield(s).current == idle && boot in Yield(s).runq[0] && !MostUrgent(Yield(s))
  {
    var s := Booted(boot, idle, 0);
    assert s.runq[7] == [idle] && forall k :: 0 <= k < 7 ==> s.runq[k] == [];
    BestIs(s.runq, 0, 7);
    BootedGood(boot, idle, 0);
    hide Good, Yield, Best;
    YieldShape(s);
    YieldIsUrgentExactly(s);
  }

  // ---- round robin --------------------------------------------------------------------------------------

  function YieldTimes(s: Sched, k: nat): Sched
    requires Good(s)
    decreases k
  {
    if k == 0 then s else
      YieldGood(s);
      YieldTimes(Yield(s), k - 1)
  }

  /** The threads of the running thread's level, in the order in which they will run. */
  function Ring(s: Sched): (r: seq<Tid>)
    requires Shaped(s) && |s.runq| == PRIO_LEVELS
    ensures r != [] && r[0] == s.current
  {
    [s.current] + s.runq[Level(s.threads[s.current])]
  }

  /** Nothing more urgent waits, and the running thread has company at its own level. */
  ghost predicate Shares(s: Sched, p: nat) {
    Good(s) && Level(s.threads[s.current]) == p && Best(s.runq, 0) == p
  }

  lemma GoodShape(s: Sched)
    requires Good(s)
    ensures Shaped(s) && |s.runq| == PRIO_LEVELS
  {
  }

  lemma YieldRotates(s: Sched, p: nat)
    requires Shares(s, p)
    ensures Shares(Yield(s), p) && Ring(Yield(s)) == Ring(s)[1..] + [s.current]
    ensures forall k :: 0 <= k < PRIO_LEVELS && k != p ==> Yield(s).runq[k] == s.runq[k]
  {
    hide Good, Yield, Level;
    GoodShape(s);
    YieldShape(s);
    var r := Yield(s);
    GoodShape(r);
    hide Best;
    assert r.runq[p] == s.runq[p][1..] + [s.current];
    BestUnchanged(s.runq, r.runq, 0);
  }

  lemma BestIs(a: seq<seq<Tid>>, p: nat, b: nat)
    requires p <= b < |a| && a[b] != [] && forall k :: p <= k < b ==> a[k] == []
    ensures Best(a, p) == b
  {
  }

  lemma {:induction false} BestUnchanged(a: seq<seq<Tid>>, b: seq<seq<Tid>>, p: nat)
    requires |a| == |b| && p <= |a| && forall k :: p <= k < |a| ==> (a[k] == [] <==> b[k] == [])
    ensures Best(a, p) == Best(b, p)
    decreases |a| - p
  {
    if p < |a| && a[p] == [] {
      BestUnchanged(a, b, p + 1);
    }
  }

  /** Round robin: yields alone run the threads of the level in queue order, each once before
      any runs again. */
  lemma {:induction false} RoundRobin(s: Sched, p: nat, k: nat)
    requires Shares(s, p) && k <= |Ring(s)|
    ensures Shares(YieldTimes(s, k), p)
    ensures Ring(YieldTimes(s, k)) == Ring(s)[k..] + Ring(s)[..k]
    ensures k < |Ring(s)| ==> YieldTimes(s, k).current == Ring(s)[k]
    decreases k
  {
    if k > 0 {
      YieldRotates(s, p);
      var r := Yield(s);
      hide Yield, Best, Good, Ring, Level;
      RoundRobin(r, p, k - 1);
      RotateOnce(Ring(s), Ring(r), k);
    }
  }

  lemma RotateOnce(a: seq<Tid>, b: seq<Tid>, k: nat)
    requires 1 <= k <= |a| && b == a[1..] + [a[0]]
    ensures b[k - 1..] + b[..k - 1] == a[k..] + a[..k]
    ensures k < |a| ==> b[k - 1] == a[k]
  {
    assert b[k - 1..] == a[k..] + [a[0]];
    assert b[..k - 1] == a[1..k];
    assert a[..k] == [a[0]] + a[1..k];
  }
}
