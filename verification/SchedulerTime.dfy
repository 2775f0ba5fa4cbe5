/** What happens to every single thread, step by step and over whole runs, in numbers of ticks:
    how long a sleep lasts, how long a slice lasts, how long a thread stays blocked, and what
    is left of a thread that has exited. */
module SchedulerTime {
  import opened Arithmetic
  import opened Sequences
  import opened Scheduling
  import opened SchedulerInvariant
  import opened SchedulerRuns

  // ---- one switch ---------------------------------------------------------------------------------

  /** A thread that gets the processor has two ticks. */
  function Given(t: Thread): Thread {
    t.(state := Running, timeSlice := 2, switches := t.switches + 1)
  }

  function Put(t: Thread): Thread {
    if t.state == Running then t.(state := Runnable) else t
  }

  /** At most sixteen exited threads wait to be freed; the oldest makes place. */
  function Waiting(zombies: seq<Tid>, t: Tid): seq<Tid> {
    if |zombies| < 16 then zombies + [t] else zombies[1..] + [t]
  }

  /** The processor goes to a runnable thread, the thread before it is put back if it still
      runs, and of the others at most an exited one goes, to make place for one that exits. */
  ghost predicate Switched(s: Sched, r: Sched)
    requires s.current in s.threads
  {
    && r.idle == s.idle && r.ticks == s.ticks && r.needResched == s.needResched
    && r.threads.Keys <= s.threads.Keys && s.current in r.threads && r.current in r.threads
    && (if r.current == s.current then r == s
        else
          && r.switches == s.switches + 1
          && s.threads[r.current].state == Runnable && r.threads[r.current] == Given(s.threads[r.current])
          && r.threads[s.current] == Put(s.threads[s.current])
          && (forall u :: u in r.threads && u != s.current && u != r.current ==> r.threads[u] == s.threads[u])
          && (forall u :: u in s.threads && u !in r.threads ==>
                s.threads[s.current].state == s.threads[u].state == Zombie)
          && (if s.threads[s.current].state == Zombie then
                && r.zombies == Waiting(s.zombies, s.current)
                && r.threads.Keys == s.threads.Keys - (if |s.zombies| < 16 then {} else {s.zombies[0]})
              else r.zombies == s.zombies && r.threads.Keys == s.threads.Keys))
  }

  lemma PreemptSwitches(s: Sched, next: Tid)
    requires Picking(s, next) && s.threads[s.current].state == Running
    ensures Switched(s, SwitchTo(s, next))
  {
    hide QueuedExcept, ZombiesListed, Level;
  }

  lemma InstallSwitches(s: Sched, next: Tid)
    requires Picking(s, next) && s.threads[s.current].state in {Blocked, Sleeping}
    ensures Switched(s, Install(s, next))
  {
    hide QueuedExcept, ZombiesListed;
  }

  lemma ReapQueues(s: Sched, next: Tid)
    requires Picking(s, next) && s.threads[s.current].state == Zombie
    ensures var t, r := s.current, Reap(s, s.current);
      && r.zombies == Waiting(s.zombies, t)
      && r.threads == (if |s.zombies| < 16 then s.threads else s.threads - {s.zombies[0]})
      && s.(threads := r.threads, zombies := r.zombies) == r
      && (forall z :: z in s.zombies ==> z in s.threads && z != t && z != next && s.threads[z].state == Zombie)
  {
    NotQueued(s, {next}, s.current);
    hide QueuedExcept, Remove;
  }

  lemma ReapSwitches(s: Sched, next: Tid)
    requires Picking(s, next) && s.threads[s.current].state == Zombie
    ensures Switched(s, SwitchTo(s, next))
  {
    ReapQueues(s, next);
    hide QueuedExcept, ZombiesListed, Reap, Waiting;
  }

  lemma SwitchMoves(s: Sched)
    requires Leaving(s) && s.threads[s.current].state in {Running, Zombie}
    ensures var p := PickNext(s); p.next in p.s.threads && Switched(s, SwitchTo(p.s, p.next))
    ensures s.current != s.idle ==> SwitchTo(PickNext(s).s, PickNext(s).next).current != s.current
  {
    hide Best, QueuedExcept, ZombiesListed;
    PicksHead(s);
    SwitchGood(s);
    if Best(s.runq, 0) < PRIO_LEVELS {
      PickingAfterPick(s);
      SameButQueue(s);
      var p := PickNext(s);
      hide PickNext, SwitchTo, Leaving;
      if s.threads[s.current].state == Running {
        PreemptSwitches(p.s, p.next);
      } else {
        ReapSwitches(p.s, p.next);
      }
    }
  }

  lemma SameButQueue(s: Sched)
    requires Shaped(s)
    ensures var v := PickNext(s).s; s.(runq := v.runq, runqLen := v.runqLen) == v
  {
    hide Best;
  }

  lemma LeaveMoves(s: Sched)
    requires Leaving(s) && s.threads[s.current].state in {Blocked, Sleeping}
    ensures Switched(s, Leave(s)) && Leave(s).current != s.current
  {
    hide Best, QueuedExcept, ZombiesListed;
    SomethingIsQueued(s);
    PicksHead(s);
    PickingAfterPick(s);
    SameButQueue(s);
    InstallSwitches(PickNext(s).s, PickNext(s).next);
  }

  // ---- one operation ------------------------------------------------------------------------------

  /** What an operation makes of a thread that does not run. */
  function Elsewhere(s: Sched, op: Op, u: Tid): Thread
    requires u in s.threads
  {
    var t := s.threads[u];
    if || (op == OpAdmit(u) && t.state == Created) || (op == OpUnblock(u) && t.state == Blocked)
       || (op == OpTick && t.state == Sleeping && s.ticks + 1 >= t.wakeTick)
    then t.(state := Runnable) else t
  }

  /** What an operation makes of the thread that runs, before the processor changes hands. */
  function OfCurrent(s: Sched, op: Op): Thread
    requires s.current in s.threads
  {
    var t := s.threads[s.current];
    if s.current == s.idle && (op.OpBlock? || op.OpSleep?) then t
    else match op
      case OpTick => t.(totalTicks := t.totalTicks + 1, timeSlice := Dec(t.timeSlice))
      case OpYield => t.(timeSlice := 2)
      case OpBlock => t.(state := Blocked)
      case OpSleep(n) => if n == 0 then t else t.(state := Sleeping, wakeTick := s.ticks + n)
      case OpExit => t.(state := Zombie)
      case _ => t
  }

  /** Between the change an operation makes and the switch it may end in. */
  ghost predicate Touched(s: Sched, op: Op, m: Sched)
    requires s.current in s.threads
  {
    && m.current == s.current && m.idle == s.idle && m.switches == s.switches
    && m.ticks == (if op.OpTick? then s.ticks + 1 else s.ticks)
    && m.needResched == (s.needResched && !op.OpTick?)
    && m.zombies == (if op.OpCollect? then [] else s.zombies)
    && (forall u :: u in m.threads <==>
          (u in s.threads && !(op.OpCollect? && u in s.zombies)) || (op.OpCreate? && u == op.t))
    && (forall u :: u in m.threads && u in s.threads ==>
          m.threads[u] == if u == s.current then OfCurrent(s, op) else Elsewhere(s, op, u))
    && (forall u :: u in m.threads && u !in s.threads ==>
          op.OpCreate? && m.threads[u] == Thread(Created, op.priority, 2, 0, 0, 0))
  }

  /** Every operation changes the threads it names and the one that runs, and then at most
      hands over the processor. */
  ghost predicate Moved(s: Sched, op: Op, m: Sched, r: Sched)
    requires s.current in s.threads
  {
    && Touched(s, op, m) && m.current in m.threads && Switched(m, r)
    && (op.OpCreate? || op.OpAdmit? || op.OpUnblock? || op.OpCollect? ==> r.current == s.current)
    && (m.threads[m.current].state in {Blocked, Sleeping, Zombie} ==> r.current != s.current)
    && (op.OpTick? && m.threads[m.current].timeSlice > 0 && !s.needResched ==> r.current == s.current)
    && (op.OpTick? && m.threads[m.current].timeSlice == 0 && s.current != s.idle ==> r.current != s.current)
    && (op.OpYield? && s.current != s.idle ==> r.current != s.current)
  }

  /** The state between, when nothing switches it is the state after. */
  function Between(s: Sched, op: Op): (m: Sched)
    requires Shaped(s) && Allowed(s, op)
  {
    var c := s.threads[s.current];
    match op
    case OpYield => if c.state == Running then s.(threads := s.threads[s.current := c.(timeSlice := TIME_SLICE_TICKS)]) else s
    case OpBlock => if s.current == s.idle then s else s.(threads := s.threads[s.current := c.(state := Blocked)])
    case OpSleep(n) => if s.current == s.idle || n == 0 then s
      else s.(threads := s.threads[s.current := c.(state := Sleeping, wakeTick := s.ticks + n)])
    case OpExit => s.(threads := s.threads[s.current := c.(state := Zombie)])
    case OpTick => var w := Ticked(s, Tids(MAX_THREADS));
      if w.threads[w.current].timeSlice == 0 || w.needResched then w.(needResched := false) else w
    case _ => Step(s, op)
  }

  lemma CollectMoves(s: Sched)
    requires Good(s)
    ensures Moved(s, OpCollect, Between(s, OpCollect), Step(s, OpCollect))
  {
    hide QueuedExcept;
  }

  lemma QuietMoves(s: Sched, op: Op)
    requires Good(s) && Allowed(s, op) && (op.OpCreate? || op.OpAdmit? || op.OpUnblock?)
    ensures Moved(s, op, Between(s, op), Step(s, op))
  {
    hide QueuedExcept, ZombiesListed, Level;
  }

  lemma BlockMoves(s: Sched)
    requires Good(s)
    ensures Moved(s, OpBlock, Between(s, OpBlock), Step(s, OpBlock))
  {
    hide QueuedExcept, ZombiesListed, PickNext, Leave;
    if s.current != s.idle {
      CurrentStops(s, s.threads[s.current].(state := Blocked));
      LeaveMoves(Between(s, OpBlock));
    }
  }

  lemma SleepMoves(s: Sched, n: nat)
    requires Good(s)
    ensures Moved(s, OpSleep(n), Between(s, OpSleep(n)), Step(s, OpSleep(n)))
  {
    hide QueuedExcept, ZombiesListed, PickNext, Leave;
    if s.current != s.idle && n > 0 {
      CurrentStops(s, s.threads[s.current].(state := Sleeping, wakeTick := s.ticks + n));
      LeaveMoves(Between(s, OpSleep(n)));
    }
  }

  lemma YieldMoves(s: Sched)
    requires Good(s)
    ensures Moved(s, OpYield, Between(s, OpYield), Step(s, OpYield))
  {
    hide QueuedExcept, ZombiesListed, PickNext, SwitchTo;
    YieldIsASwitch(s);
    SwitchMoves(Between(s, OpYield));
  }

  lemma StepMoves(s: Sched, op: Op)
    requires Good(s) && OnTime(s) && Allowed(s, op)
    ensures Moved(s, op, Between(s, op), Step(s, op))
  {
    hide Good, OnTime, Step, Between, Moved;
    match op
    case OpTick => TickMoves(s);
    case OpYield => YieldMoves(s);
    case OpBlock => BlockMoves(s);
    case OpSleep(n) => SleepMoves(s, n);
    case OpExit => ExitMoves(s);
    case OpCollect => CollectMoves(s);
    case _ => QuietMoves(s, op);
  }

  lemma ExitMoves(s: Sched)
    requires Good(s) && s.current != s.idle
    ensures Moved(s, OpExit, Between(s, OpExit), Step(s, OpExit))
  {
    hide QueuedExcept, ZombiesListed, PickNext, SwitchTo;
    var c := s.threads[s.current].(state := Zombie);
    CurrentStops(s, c);
    SwitchMoves(Between(s, OpExit));
    ExitKeepsGood(s);
  }

  /** The scan of all thread ids wakes whoever is due. */
  lemma ScanWakes(s: Sched)
    requires Shaped(s) && OnTime(s)
    ensures var r := WakeSleepers(s.(ticks := s.ticks + 1), s.ticks + 1, Tids(MAX_THREADS));
      && r.threads.Keys == s.threads.Keys && r.ticks == s.ticks + 1 && r.current == s.current
      && r.idle == s.idle && r.switches == s.switches && r.needResched == s.needResched && r.zombies == s.zombies
      && (forall u :: u in s.threads ==> r.threads[u] == Woken(s.threads[u], s.ticks + 1, true))
  {
    var tids, s0 := Tids(MAX_THREADS), s.(ticks := s.ticks + 1);
    WakesExactlyTheDue(s0, s.ticks + 1, tids);
    WakingKeepsRest(s0, s.ticks + 1, tids);
    hide WakeSleepers, Tids, Woken, Shaped;
    forall u | u in s.threads
      ensures u in tids
    {
      assert tids[u - 1] == u;
    }
  }

  lemma TickTouches(s: Sched)
    requires Shaped(s) && OnTime(s) && s.threads[s.current].state == Running
    ensures Touched(s, OpTick, Between(s, OpTick))
  {
    hide WakeSleepers, Tids;
    ScanWakes(s);
    hide OnTime;
  }

  lemma {:induction false} WakingKeepsRest(s: Sched, now: nat, tids: seq<Tid>)
    requires Shaped(s)
    ensures var r := WakeSleepers(s, now, tids);
      && r.idle == s.idle && r.switches == s.switches && r.needResched == s.needResched && r.zombies == s.zombies
    decreases |tids|
  {
    if tids != [] {
      var t := tids[0];
      var due := t in s.threads && s.threads[t].state == Sleeping && now >= s.threads[t].wakeTick;
      WakingKeepsRest(if due then Push(s, t) else s, now, tids[1..]);
    }
  }

  lemma BetweenIsGood(s: Sched)
    requires Good(s)
    ensures var m := Between(s, OpTick); Good(m) && m.current == s.current
  {
    var w := Ticked(s, Tids(MAX_THREADS));
    hide Tids, Ticked;
    TickedGood(s, Tids(MAX_THREADS));
    TicksMove(w, w.ticks, false);
    assert w.(ticks := w.ticks, needResched := false) == w.(needResched := false);
    hide Good, Shaped;
  }

  /** What the tick does after the accounting. */
  lemma TickEnds(s: Sched)
    requires Good(s)
    ensures var w, m := Ticked(s, Tids(MAX_THREADS)), Between(s, OpTick);
      Good(m) && w.current in w.threads && m.threads == w.threads
      && Step(s, OpTick) ==
        if w.threads[w.current].timeSlice == 0 || w.needResched
          then SwitchTo(PickNext(m).s, PickNext(m).next) else m
  {
    hide Tids, WakeSleepers, PickNext, SwitchTo, QueuedExcept, ZombiesListed;
    BetweenIsGood(s);
    SwitchMoves(Between(s, OpTick));
    hide Good, Switched;
  }

  lemma TickMoves(s: Sched)
    requires Good(s) && OnTime(s)
    ensures Moved(s, OpTick, Between(s, OpTick), Step(s, OpTick))
  {
    var w, m := Ticked(s, Tids(MAX_THREADS)), Between(s, OpTick);
    TickTouches(s);
    TickEnds(s);
    SwitchMoves(m);
    TickedKeepsResched(s);
    hide Good, OnTime, Step, Between, Ticked, PickNext, SwitchTo, Elsewhere, OfCurrent;
  }

  lemma TickedKeepsResched(s: Sched)
    requires Good(s) && OnTime(s)
    ensures Ticked(s, Tids(MAX_THREADS)).needResched == s.needResched
    ensures Ticked(s, Tids(MAX_THREADS)).current == s.current
  {
    hide WakeSleepers, Tids, QueuedExcept;
    ScanWakes(s);
  }

  // ---- one thread in one step ---------------------------------------------------------------------

  function Stepped(s: Sched, op: Op, u: Tid, next: Tid): Thread
    requires s.current in s.threads && u in s.threads
  {
    if u == s.current then if next == u then OfCurrent(s, op) else Put(OfCurrent(s, op))
    else if next == u then Given(Elsewhere(s, op, u)) else Elsewhere(s, op, u)
  }

  /** What every step of every run does to thread `u`. */
  lemma StepOf(s: Sched, op: Op, u: Tid)
    requires Good(s) && OnTime(s) && Allowed(s, op) && u in s.threads
    ensures var r := Step(s, op); u in r.threads ==> r.threads[u] == Stepped(s, op, u, r.current)
    ensures var r := Step(s, op); u != s.current && r.current == u ==> Elsewhere(s, op, u).state == Runnable
    ensures u !in Step(s, op).threads ==> u != s.current && s.threads[u].state == Zombie && (op.OpExit? || op.OpCollect?)
    ensures var r := Step(s, op);
      r.current in r.threads && r.idle == s.idle && r.ticks == (if op.OpTick? then s.ticks + 1 else s.ticks)
  {
    StepMoves(s, op);
    CollectedAreZombies(s);
    hide Good, OnTime, Step, Between, Elsewhere;
  }

  lemma CollectedAreZombies(s: Sched)
    requires Good(s)
    ensures s.current in s.threads && forall z :: z in s.zombies ==> z in s.threads && z != s.current && s.threads[z].state == Zombie
  {
    hide QueuedExcept;
  }

  // ---- whole runs -----------------------------------------------------------------------------------

  /** The ticks among the operations from number `i` to before number `j`. */
  function TicksIn(ops: seq<Op>, i: nat, j: nat): (n: nat)
    requires i <= j <= |ops|
    ensures n <= j - i
  {
    if i == j then 0 else TicksIn(ops, i, j - 1) + if ops[j - 1].OpTick? then 1 else 0
  }

  predicate Is(s: Sched, t: Tid, state: ThreadState) {
    t in s.threads && s.threads[t].state == state
  }

  lemma RunStep(states: seq<Sched>, ops: seq<Op>, j: nat)
    requires Runs(states, ops) && j < |ops|
    ensures Good(states[j]) && OnTime(states[j]) && Allowed(states[j], ops[j]) && states[j + 1] == Step(states[j], ops[j])
  {
    RunsStayGood(states, ops, j);
  }

  /** A sleep of `n` ticks by any thread but idle: until `n` ticks have passed the thread
      sleeps, whatever else happens, and the `n`-th tick makes it runnable or runs it. */
  lemma SleepLasts(states: seq<Sched>, ops: seq<Op>, i: nat, n: nat, j: nat)
    requires Runs(states, ops) && i < j < |states| && ops[i] == OpSleep(n) && n > 0
    requires states[i].current != states[i].idle
    ensures TicksIn(ops, i + 1, j) < n ==> Is(states[j], states[i].current, Sleeping)
    ensures TicksIn(ops, i + 1, j) == n && ops[j - 1] == OpTick ==>
      Is(states[j], states[i].current, Runnable) || Is(states[j], states[i].current, Running)
  {
    hide Good, OnTime, Step, Allowed;
    var t := states[i].current;
    if TicksIn(ops, i + 1, j) < n {
      SleepsOn(states, ops, i, n, j);
    } else if TicksIn(ops, i + 1, j) == n && ops[j - 1] == OpTick {
      SleepsOn(states, ops, i, n, j - 1);
      RunStep(states, ops, j - 1);
      CurrentIsRunning(states[j - 1]);
      StepOf(states[j - 1], OpTick, t);
    }
  }

  lemma CurrentIsRunning(s: Sched)
    requires Good(s)
    ensures Is(s, s.current, Running)
  {
  }

  lemma {:induction false} SleepsOn(states: seq<Sched>, ops: seq<Op>, i: nat, n: nat, j: nat)
    requires Runs(states, ops) && i < j < |states| && ops[i] == OpSleep(n)
    requires states[i].current != states[i].idle && TicksIn(ops, i + 1, j) < n
    ensures var t := states[i].current;
      && Is(states[j], t, Sleeping)
      && states[j].threads[t].wakeTick == states[i].ticks + n
      && states[j].ticks == states[i].ticks + TicksIn(ops, i + 1, j)
  {
    hide Good, OnTime, Step, Allowed;
    var t, s := states[i].current, states[j - 1];
    RunStep(states, ops, j - 1);
    CurrentIsRunning(s);
    if j > i + 1 {
      SleepsOn(states, ops, i, n, j - 1);
    } else {
      RunStep(states, ops, i);
      SleepLeaves(s, n);
    }
    StepOf(s, ops[j - 1], t);
  }

  lemma SleepLeaves(s: Sched, n: nat)
    requires Good(s) && s.current != s.idle && n > 0
    ensures Step(s, OpSleep(n)).current != s.current
  {
    SleepMoves(s, n);
    hide Good, Step;
  }

  /** A thread that blocks stays blocked until somebody unblocks it, and then is runnable. */
  lemma {:induction false} BlockLasts(states: seq<Sched>, ops: seq<Op>, i: nat, j: nat)
    requires Runs(states, ops) && i < j < |states| && ops[i] == OpBlock && states[i].current != states[i].idle
    requires forall k :: i < k < j ==> ops[k] != OpUnblock(states[i].current)
    ensures Is(states[j], states[i].current, Blocked)
    ensures j < |ops| && ops[j] == OpUnblock(states[i].current) ==> Is(states[j + 1], states[i].current, Runnable)
  {
    hide Good, OnTime, Step, Allowed;
    var t, s := states[i].current, states[j - 1];
    RunStep(states, ops, j - 1);
    CurrentIsRunning(s);
    if j > i + 1 {
      BlockLasts(states, ops, i, j - 1);
    } else {
      StepMoves(s, OpBlock);
    }
    StepOf(s, ops[j - 1], t);
    if j < |ops| {
      NamedStep(states, ops, j, t);
    }
  }

  /** Admitting and unblocking never switch. */
  lemma NamedStep(states: seq<Sched>, ops: seq<Op>, j: nat, t: Tid)
    requires Runs(states, ops) && j < |ops| && t in states[j].threads && states[j].threads[t].state in {Created, Blocked}
    ensures ops[j] == OpUnblock(t) ==> Is(states[j + 1], t, if states[j].threads[t].state == Blocked then Runnable else Created)
    ensures ops[j] == OpAdmit(t) ==> Is(states[j + 1], t, if states[j].threads[t].state == Created then Runnable else Blocked)
    ensures t in states[j + 1].threads && states[j + 1].threads[t].priority == states[j].threads[t].priority
  {
    hide Good, OnTime, Step, Allowed;
    RunStep(states, ops, j);
    CurrentIsRunning(states[j]);
    StepOf(states[j], ops[j], t);
    StepMoves(states[j], ops[j]);
    hide Touched, Switched, Between;
  }

  /** A thread made with a priority does not run before it is admitted, and is then runnable
      at that priority. */
  lemma {:induction false} CreatedWaits(states: seq<Sched>, ops: seq<Op>, i: nat, t: Tid, priority: nat, j: nat)
    requires Runs(states, ops) && i < j < |states| && ops[i] == OpCreate(t, priority)
    requires forall k :: i < k < j ==> ops[k] != OpAdmit(t)
    ensures Is(states[j], t, Created) && states[j].threads[t].priority == priority
    ensures j < |ops| && ops[j] == OpAdmit(t) ==>
      Is(states[j + 1], t, Runnable) && states[j + 1].threads[t].priority == priority
  {
    hide Good, OnTime, Step;
    var s := states[j - 1];
    RunStep(states, ops, j - 1);
    CurrentIsRunning(s);
    if j > i + 1 {
      CreatedWaits(states, ops, i, t, priority, j - 1);
      StepOf(s, ops[j - 1], t);
    } else {
      StepMoves(s, ops[i]);
    }
    if j < |ops| {
      NamedStep(states, ops, j, t);
    }
  }

  // ---- slices ---------------------------------------------------------------------------------------

  lemma {:induction false} NobodyAsks(states: seq<Sched>, ops: seq<Op>, j: nat)
    requires Runs(states, ops) && j < |states|
    ensures !states[j].needResched
  {
    hide Good, OnTime, Step, Allowed;
    if j > 0 {
      NobodyAsks(states, ops, j - 1);
      RunStep(states, ops, j - 1);
      CurrentIsRunning(states[j - 1]);
      StepMoves(states[j - 1], ops[j - 1]);
    }
  }

  predicate GivesUp(op: Op) {
    op.OpYield? || op.OpBlock? || op.OpSleep? || op.OpExit?
  }

  /** What one step does to the thread that runs and does not give up the processor. */
  lemma KeepsRunning(s: Sched, op: Op)
    requires Good(s) && OnTime(s) && Allowed(s, op) && !GivesUp(op) && !s.needResched
    ensures var t, r := s.current, Step(s, op);
      && t in s.threads && t in r.threads && r.idle == s.idle && r.current in r.threads
      && (!op.OpTick? ==> r.current == t && r.threads[t].timeSlice == s.threads[t].timeSlice)
      && (op.OpTick? && s.threads[t].timeSlice > 1 ==>
            r.current == t && r.threads[t].timeSlice == s.threads[t].timeSlice - 1)
      && (op.OpTick? && s.threads[t].timeSlice == 1 && t != s.idle ==> r.current != t)
  {
    CurrentIsRunning(s);
    StepMoves(s, op);
    hide Good, OnTime, Step, Between, Elsewhere;
  }

  /** A thread that is given the processor and does not give it up keeps it through one tick
      and loses it at the second, unless it is idle. */
  lemma SliceLasts(states: seq<Sched>, ops: seq<Op>, i: nat, j: nat)
    requires Runs(states, ops) && i < |ops| && states[i + 1].current != states[i].current
    requires i < j < |states| && forall k :: i < k < j ==> !GivesUp(ops[k])
    ensures TicksIn(ops, i + 1, j) < 2 ==> states[j].current == states[i + 1].current
    ensures TicksIn(ops, i + 1, j) == 2 && ops[j - 1] == OpTick && states[i + 1].current != states[i].idle ==>
      states[j].current != states[i + 1].current
  {
    hide Good, OnTime, Step, Allowed;
    if TicksIn(ops, i + 1, j) < 2 {
      RunsOn(states, ops, i, j);
    } else if TicksIn(ops, i + 1, j) == 2 && ops[j - 1] == OpTick {
      var s := states[j - 1];
      RunsOn(states, ops, i, j - 1);
      RunStep(states, ops, j - 1);
      CurrentIsRunning(s);
      StepMoves(s, OpTick);
    }
  }

  lemma {:induction false} RunsOn(states: seq<Sched>, ops: seq<Op>, i: nat, j: nat)
    requires Runs(states, ops) && i < |ops| && states[i + 1].current != states[i].current
    requires i < j < |states| && forall k :: i < k < j ==> !GivesUp(ops[k])
    requires TicksIn(ops, i + 1, j) < 2
    ensures var t := states[i + 1].current;
      && states[j].current == t && states[j].idle == states[i].idle
      && t in states[j].threads && states[j].threads[t].timeSlice == 2 - TicksIn(ops, i + 1, j)
  {
    hide Good, OnTime, Step, Allowed;
    var s := states[j - 1];
    RunStep(states, ops, j - 1);
    NobodyAsks(states, ops, j - 1);
    if j > i + 1 {
      RunsOn(states, ops, i, j - 1);
      KeepsRunning(s, ops[j - 1]);
    } else {
      HandsOver(s, ops[i]);
    }
  }

  lemma HandsOver(s: Sched, op: Op)
    requires Good(s) && OnTime(s) && Allowed(s, op) && Step(s, op).current != s.current
    ensures var r := Step(s, op);
      r.current in r.threads && r.idle == s.idle && r.threads[r.current].timeSlice == 2
  {
    CurrentIsRunning(s);
    StepMoves(s, op);
    hide Good, OnTime, Step, Between, Elsewhere, OfCurrent;
  }

  // ---- accounts -------------------------------------------------------------------------------------

  /** The ticks in which thread `t` ran. */
  function TicksOf(states: seq<Sched>, ops: seq<Op>, t: Tid, i: nat, j: nat): nat
    requires i <= j <= |ops| < |states|
  {
    if i == j then 0
    else TicksOf(states, ops, t, i, j - 1) + if ops[j - 1].OpTick? && states[j - 1].current == t then 1 else 0
  }

  function Handovers(states: seq<Sched>, i: nat, j: nat): nat
    requires i <= j < |states|
  {
    if i == j then 0
    else Handovers(states, i, j - 1) + if states[j].current != states[j - 1].current then 1 else 0
  }

  /** The clock counts the ticks, every thread is charged for exactly those in which it ran,
      and the switches counted are the times the processor changed hands. */
  lemma {:induction false} Accounts(states: seq<Sched>, ops: seq<Op>, t: Tid, i: nat, j: nat)
    requires Runs(states, ops) && i <= j < |states|
    requires forall k :: i <= k <= j ==> t in states[k].threads
    ensures states[j].ticks == states[i].ticks + TicksIn(ops, i, j)
    ensures states[j].threads[t].totalTicks == states[i].threads[t].totalTicks + TicksOf(states, ops, t, i, j)
    ensures states[j].switches == states[i].switches + Handovers(states, i, j)
  {
    hide Good, OnTime, Step, Allowed;
    if i < j {
      Accounts(states, ops, t, i, j - 1);
      RunStep(states, ops, j - 1);
      StepAccounts(states[j - 1], ops[j - 1], t);
    }
  }

  lemma StepAccounts(s: Sched, op: Op, t: Tid)
    requires Good(s) && OnTime(s) && Allowed(s, op) && t in s.threads && t in Step(s, op).threads
    ensures var r := Step(s, op);
      && r.ticks == s.ticks + (if op.OpTick? then 1 else 0)
      && r.threads[t].totalTicks == s.threads[t].totalTicks + (if op.OpTick? && s.current == t then 1 else 0)
      && r.switches == s.switches + (if r.current != s.current then 1 else 0)
  {
    CurrentIsRunning(s);
    StepOf(s, op, t);
    hide Good, OnTime, Step, Between;
    StepSwitches(s, op);
  }

  lemma StepSwitches(s: Sched, op: Op)
    requires Good(s) && OnTime(s) && Allowed(s, op)
    ensures var r := Step(s, op); r.switches == s.switches + (if r.current != s.current then 1 else 0)
  {
    CurrentIsRunning(s);
    StepMoves(s, op);
    hide Good, OnTime, Step, Between, Elsewhere, OfCurrent;
  }

  // ---- exits ----------------------------------------------------------------------------------------

  function ExitsIn(ops: seq<Op>, i: nat, j: nat): (n: nat)
    requires i <= j <= |ops|
  {
    if i == j then 0 else ExitsIn(ops, i, j - 1) + if ops[j - 1].OpExit? then 1 else 0
  }

  /** An exited thread never runs again: it is kept while fewer than sixteen others exit and
      nobody collects, and is gone with the sixteenth exit or the collection. */
  lemma ExitIsFinal(states: seq<Sched>, ops: seq<Op>, i: nat, j: nat)
    requires Runs(states, ops) && i < j < |states| && ops[i] == OpExit
    requires forall k :: i < k < j - 1 ==> ops[k] != OpCollect
    ensures j - 1 > i && ops[j - 1] == OpCollect && ExitsIn(ops, i + 1, j) < 16 ==> states[i].current !in states[j].threads
    ensures ops[j - 1] != OpCollect && ExitsIn(ops, i + 1, j) < 16 ==> Is(states[j], states[i].current, Zombie)
    ensures ops[j - 1] == OpExit && ExitsIn(ops, i + 1, j) == 16 ==> states[i].current !in states[j].threads
  {
    hide Good, OnTime, Step, Allowed;
    var t, s := states[i].current, states[j - 1];
    if ExitsIn(ops, i + 1, j) < 16 && ops[j - 1] != OpCollect {
      StaysExited(states, ops, i, j);
    } else if j - 1 > i && (ops[j - 1] == OpCollect || ops[j - 1] == OpExit) && ExitsIn(ops, i + 1, j - 1) < 16 {
      StaysExited(states, ops, i, j - 1);
      RunStep(states, ops, j - 1);
      LastZombieStep(s, ops[j - 1], t);
    }
  }

  lemma LastZombieStep(s: Sched, op: Op, t: Tid)
    requires Good(s) && OnTime(s) && Allowed(s, op) && t in s.zombies
    requires op.OpCollect? || (op.OpExit? && |s.zombies| == 16 && s.zombies[0] == t)
    ensures t !in Step(s, op).threads
  {
    CurrentIsRunning(s);
    StepMoves(s, op);
    CollectedAreZombies(s);
    hide Good, OnTime, Step, Between, Elsewhere, OfCurrent, Waiting;
  }

  /** Where the exited thread stands among those that wait: as many behind it as exited since. */
  lemma {:induction false} StaysExited(states: seq<Sched>, ops: seq<Op>, i: nat, j: nat)
    requires Runs(states, ops) && i < j < |states| && ops[i] == OpExit
    requires forall k :: i < k < j ==> ops[k] != OpCollect
    requires ExitsIn(ops, i + 1, j) < 16
    ensures var z := states[j].zombies;
      && Is(states[j], states[i].current, Zombie) && ExitsIn(ops, i + 1, j) < |z| <= 16
      && z[|z| - 1 - ExitsIn(ops, i + 1, j)] == states[i].current
  {
    hide Good, OnTime, Step, Allowed;
    var t, s := states[i].current, states[j - 1];
    RunStep(states, ops, j - 1);
    CurrentIsRunning(s);
    FewZombies(s);
    if j > i + 1 {
      StaysExited(states, ops, i, j - 1);
    }
    StepExits(s, ops[j - 1]);
    StepOf(s, ops[j - 1], t);
    hide Stepped;
  }

  lemma StepExits(s: Sched, op: Op)
    requires Good(s) && OnTime(s) && Allowed(s, op) && !op.OpCollect?
    ensures var r := Step(s, op);
      && r.zombies == (if op.OpExit? then Waiting(s.zombies, s.current) else s.zombies)
      && (forall z :: z in r.zombies ==> z in r.threads && r.threads[z].state == Zombie)
  {
    CurrentIsRunning(s);
    StepMoves(s, op);
    StepGood(s, op);
    ZombiesAreExited(Step(s, op));
    hide Good, OnTime, Step, Between, Elsewhere, Waiting;
  }

  lemma ZombiesAreExited(s: Sched)
    requires Good(s)
    ensures forall z :: z in s.zombies ==> z in s.threads && s.threads[z].state == Zombie
  {
  }

  lemma FewZombies(s: Sched)
    requires Good(s)
    ensures |s.zombies| <= 16 && forall i, j :: 0 <= i < j < |s.zombies| ==> s.zombies[i] != s.zombies[j]
  {
  }
}
