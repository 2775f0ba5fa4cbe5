/** The scheduler's state and operations as values. An operation runs from one switch to the
    next without interruption. */
module Scheduling {
  import opened Arithmetic
  import opened Sequences

  const PRIO_LEVELS: nat := 8
  const PRIO_IDLE: nat := 7
  const TIME_SLICE_TICKS: nat := 2
  const ZOMBIE_SLOTS: nat := 16

  type Tid = nat

  datatype ThreadState = Created | Runnable | Running | Blocked | Sleeping | Zombie

  datatype Thread = Thread(
    state: ThreadState, priority: nat, timeSlice: nat,
    wakeTick: nat, totalTicks: nat, switches: nat)

  datatype Sched = Sched(
    threads: map<Tid, Thread>,
    runq: seq<seq<Tid>>, runqLen: seq<nat>,
    current: Tid, idle: Tid,
    ticks: nat, switches: nat, needResched: bool,
    zombies: seq<Tid>)

  // ---- the run queue --------------------------------------------------------------------------

  predicate Shaped(s: Sched) {
    && |s.runq| == |s.runqLen| == PRIO_LEVELS
    && s.current in s.threads && s.idle in s.threads
  }

  function Level(t: Thread): (p: nat)
    ensures p < PRIO_LEVELS
  {
    if t.priority >= PRIO_LEVELS then PRIO_LEVELS - 1 else t.priority
  }

  function WithState(s: Sched, t: Tid, state: ThreadState): Sched
    requires t in s.threads
  {
    s.(threads := s.threads[t := s.threads[t].(state := state)])
  }

  function Push(s: Sched, t: Tid): (r: Sched)
    requires Shaped(s) && t in s.threads
    ensures Shaped(r)
  {
    var p := Level(s.threads[t]);
    WithState(s.(runq := s.runq[p := s.runq[p] + [t]], runqLen := s.runqLen[p := s.runqLen[p] + 1]), t, Runnable)
  }

  /** The most urgent level at or after `p` that holds a thread, or PRIO_LEVELS. */
  function Best(runq: seq<seq<Tid>>, p: nat): (b: nat)
    requires p <= |runq|
    ensures p <= b <= |runq|
    ensures forall k :: p <= k < b ==> runq[k] == []
    ensures b < |runq| ==> runq[b] != []
    decreases |runq| - p
  {
    if p < |runq| && runq[p] == [] then Best(runq, p + 1) else p
  }

  /** Takes the head of level `p`. */
  function Pop(s: Sched, p: nat): (r: Sched)
    requires Shaped(s) && p < PRIO_LEVELS && s.runq[p] != []
    ensures Shaped(r)
  {
    s.(runq := s.runq[p := s.runq[p][1..]], runqLen := s.runqLen[p := Dec(s.runqLen[p])])
  }

  datatype Picked = Picked(next: Tid, s: Sched)

  /** The FIFO head of the best level; with nothing queued, the current thread if it still
      runs, and otherwise idle. */
  function PickNext(s: Sched): (r: Picked)
    requires Shaped(s)
    ensures Shaped(r.s) && r.s.threads == s.threads
  {
    var p := Best(s.runq, 0);
    if p < PRIO_LEVELS then Picked(s.runq[p][0], Pop(s, p))
    else if s.threads[s.current].state == Running then Picked(s.current, s)
    else Picked(s.idle, s)
  }

  /** The first level at or after `p` that holds `t`, or PRIO_LEVELS. */
  function Holding(runq: seq<seq<Tid>>, t: Tid, p: nat): (b: nat)
    requires p <= |runq|
    ensures p <= b <= |runq| && (b < |runq| ==> t in runq[b])
    ensures forall k :: p <= k < b ==> t !in runq[k]
    decreases |runq| - p
  {
    if p < |runq| && t !in runq[p] then Holding(runq, t, p + 1) else p
  }

  function Remove(s: Sched, t: Tid): (r: Sched)
    requires Shaped(s)
    ensures Shaped(r)
  {
    var p := Holding(s.runq, t, 0);
    if p == PRIO_LEVELS then s
    else s.(runq := s.runq[p := Without(s.runq[p], t)], runqLen := s.runqLen[p := Dec(s.runqLen[p])])
  }

  // ---- switching ------------------------------------------------------------------------------

  function Install(s: Sched, next: Tid): (r: Sched)
    requires Shaped(s) && next in s.threads
    ensures Shaped(r)
  {
    var t := s.threads[next];
    s.(threads := s.threads[next := t.(state := Running, timeSlice := TIME_SLICE_TICKS, switches := t.switches + 1)],
       current := next, switches := s.switches + 1)
  }

  /** A zombie waits in a queue of sixteen; when that is full the oldest is freed. */
  function Reap(s: Sched, t: Tid): Sched
    requires Shaped(s) && t in s.threads && s.threads[t].state == Zombie
  {
    var r := Remove(s, t);
    if t in r.zombies then r
    else if |r.zombies| < ZOMBIE_SLOTS then r.(zombies := r.zombies + [t])
    else r.(threads := r.threads - {r.zombies[0]}, zombies := r.zombies[1..] + [t])
  }

  /** The switch proper: a running thread goes back on the queue, an exited one is handed to
      the reaper, `next` runs. */
  function SwitchTo(s: Sched, next: Tid): Sched
    requires Shaped(s) && next in s.threads
  {
    if next == s.current then s
    else
      var prev := s.current;
      match s.threads[prev].state
      case Running => Install(Push(s, prev), next)
      case Zombie =>
        var r := Reap(s, prev);
        if next in r.threads && r.idle in r.threads && r.current in r.threads then Install(r, next) else r
      case _ => Install(s, next)
  }

  // ---- the operations -----------------------------------------------------------------------------

  /** `thread_create`: a thread that is not schedulable yet. */
  function Create(s: Sched, t: Tid, priority: nat): (r: Sched)
    requires Shaped(s) && t !in s.threads
  {
    s.(threads := s.threads[t := Thread(Created, priority, TIME_SLICE_TICKS, 0, 0, 0)])
  }

  function Admit(s: Sched, t: Tid): Sched
    requires Shaped(s) && t in s.threads
  {
    if s.threads[t].state == Created then Push(s, t) else s
  }

  function Yield(s: Sched): Sched
    requires Shaped(s)
  {
    var c := s.threads[s.current];
    var s1 := if c.state == Running
      then s.(threads := s.threads[s.current := c.(timeSlice := TIME_SLICE_TICKS)]) else s;
    var p := PickNext(s1);
    if p.next in p.s.threads then SwitchTo(p.s, p.next) else p.s
  }

  /** The switch that blocking and sleeping make: the thread that leaves is on no queue. */
  function Leave(s: Sched): Sched
    requires Shaped(s)
  {
    var p := PickNext(s);
    var next := if p.next == s.current then s.idle else p.next;
    if next in p.s.threads then Install(p.s, next) else p.s
  }

  function Block(s: Sched): Sched
    requires Shaped(s)
  {
    if s.current == s.idle then s else Leave(WithState(s, s.current, Blocked))
  }

  function Unblock(s: Sched, t: Tid): Sched
    requires Shaped(s) && t in s.threads
  {
    if s.threads[t].state == Blocked then Push(s, t) else s
  }

  function Sleep(s: Sched, n: nat): Sched
    requires Shaped(s)
  {
    if s.current == s.idle || n == 0 then s
    else
      var c := s.threads[s.current];
      Leave(s.(threads := s.threads[s.current := c.(state := Sleeping, wakeTick := s.ticks + n)]))
  }

  /** `thread_exit`: the last time this thread runs. */
  function Exit(s: Sched): Sched
    requires Shaped(s)
  {
    Yield(WithState(s, s.current, Zombie))
  }

  /** Wakes the sleepers among `tids` whose time has come, in that order. */
  function WakeSleepers(s: Sched, now: nat, tids: seq<Tid>): (r: Sched)
    requires Shaped(s)
    ensures Shaped(r)
    decreases |tids|
  {
    if tids == [] then s
    else
      var t := tids[0];
      var s1 := if t in s.threads && s.threads[t].state == Sleeping && now >= s.threads[t].wakeTick
        then Push(s, t) else s;
      WakeSleepers(s1, now, tids[1..])
  }

  function Tick(s: Sched, tids: seq<Tid>): Sched
    requires Shaped(s)
  {
    var s1 := WakeSleepers(s.(ticks := s.ticks + 1), s.ticks + 1, tids);
    var c := s1.threads[s1.current];
    var slice := Dec(c.timeSlice);
    var s2 := s1.(threads := s1.threads[s1.current := c.(totalTicks := c.totalTicks + 1, timeSlice := slice)]);
    if slice == 0 || s2.needResched then
      var p := PickNext(s2.(needResched := false));
      if p.next in p.s.threads then SwitchTo(p.s, p.next) else p.s
    else s2
  }

  /** Frees every waiting zombie. */
  function CollectZombies(s: Sched): Sched
  {
    s.(threads := s.threads - (set z | z in s.zombies), zombies := [])
  }

  // ---- the invariant ----------------------------------------------------------------------------

  /** RUNNABLE threads outside `x`, and no others, are queued: once, at their level. */
  ghost predicate QueuedExcept(s: Sched, x: set<Tid>) {
    && |s.runq| == |s.runqLen| == PRIO_LEVELS
    && (forall p :: 0 <= p < PRIO_LEVELS ==> s.runqLen[p] == |s.runq[p]| && Distinct(s.runq[p]))
    && (forall p, t :: 0 <= p < PRIO_LEVELS && t in s.runq[p] ==>
          t !in x && t in s.threads && s.threads[t].state == Runnable && Level(s.threads[t]) == p)
    && (forall t :: t in s.threads && t !in x && s.threads[t].state == Runnable ==> t in s.runq[Level(s.threads[t])])
  }

  ghost predicate Queued(s: Sched) {
    QueuedExcept(s, {})
  }

  ghost predicate ZombiesListed(s: Sched) {
    && |s.zombies| <= ZOMBIE_SLOTS && Distinct(s.zombies)
    && (forall z :: z in s.zombies ==> z in s.threads && s.threads[z].state == Zombie)
    && (forall t :: t in s.threads && s.threads[t].state == Zombie && t != s.current ==> t in s.zombies)
    && s.current !in s.zombies
  }

  /** The running thread may have changed its state but has not left the processor yet. */
  ghost predicate Leaving(s: Sched) {
    && Shaped(s) && Queued(s) && ZombiesListed(s)
    && s.threads[s.current].state in {Running, Blocked, Sleeping, Zombie}
    && (forall t :: t in s.threads && s.threads[t].state == Running ==> t == s.current)
    && (if s.idle == s.current then s.threads[s.idle].state == Running else s.threads[s.idle].state == Runnable)
  }

  /** Between operations: exactly one thread runs, it is on no queue, and idle runs or is
      queued, so there is always something to pick. */
  ghost predicate Good(s: Sched) {
    Leaving(s) && s.threads[s.current].state == Running
  }
}
