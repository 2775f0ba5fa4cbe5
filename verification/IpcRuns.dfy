/** Every interleaving of senders and receivers on one endpoint: no wakeup is lost, messages
    come out in the order they went in, and the ring never overflows as long as no more
    threads receive than it has slots. */
module IpcRuns {
  import opened Sequences
  import opened Options
  import opened WaitLists
  import opened Ipc

  /** An endpoint, the threads woken from its lists that have not run again yet, and the
      messages accepted and delivered so far. */
  datatype World<T> = World(
    ep: Endpoint<T>,
    wokenReceivers: set<T>, wokenSenders: set<T>,
    sent: seq<Msg>, received: seq<Msg>)

  datatype Step<T> =
    | SendStart(thread: T, m: Msg, mayBlock: bool)
    | SendAgain(thread: T, m: Msg, mayBlock: bool)
    | RecvStart(thread: T, mayBlock: bool)
    | RecvAgain(thread: T, mayBlock: bool)
    | WakeReceiver(thread: T)   // a wakeup that did not come from this endpoint
    | WakeSender(thread: T)
    | Reference
    | Unreference

  function Start<T>(ring: seq<Msg>): World<T>
    requires |ring| == QUEUE_LEN
  {
    World(Endpoint(true, 1, ring, 0, 0, 0, [], []), {}, {}, [], [])
  }

  ghost function SetOf<T>(ts: seq<T>): set<T> {
    set t | t in ts
  }

  ghost predicate Idle<T>(w: World<T>, t: T) {
    t !in w.ep.waiters && t !in w.ep.senders && t !in w.wokenReceivers && t !in w.wokenSenders
  }

  ghost predicate Enabled<T>(w: World<T>, step: Step<T>) {
    match step
    case SendStart(t, _, _) => Idle(w, t)
    case RecvStart(t, _) => Idle(w, t)
    case SendAgain(t, _, _) => t in w.wokenSenders
    case RecvAgain(t, _) => t in w.wokenReceivers
    case WakeReceiver(t) => t in w.ep.waiters
    case WakeSender(t) => t in w.ep.senders
    case Reference => true
    case Unreference => true
  }

  function Woken<T>(o: Option<T>): set<T> {
    match o
    case None => {}
    case Some(t) => {t}
  }

  /** The endpoint's answer to a send, entered in the books. */
  function Booked<T>(w: World<T>, r: Result<T>, m: Msg): World<T> {
    match r.reply
    case Sent(woken) =>
      w.(ep := r.ep, wokenReceivers := w.wokenReceivers + Woken(woken), sent := w.sent + [m])
    case Received(got, woken) =>
      w.(ep := r.ep, wokenSenders := w.wokenSenders + Woken(woken), received := w.received + [got])
    case _ => w.(ep := r.ep)
  }

  const NO_MSG := Msg(0, [], [])

  ghost function Next<T>(w: World<T>, step: Step<T>): World<T>
    requires w.ep.Shaped()
  {
    match step
    case SendStart(t, m, b) => Booked(w, SendAttempt(w.ep, m, t, b), m)
    case SendAgain(t, m, b) => Booked(w.(wokenSenders := w.wokenSenders - {t}), SendResume(w.ep, m, t, b), m)
    case RecvStart(t, b) => Booked(w, RecvAttempt(w.ep, t, b), NO_MSG)
    case RecvAgain(t, b) => Booked(w.(wokenReceivers := w.wokenReceivers - {t}), RecvResume(w.ep, t, b), NO_MSG)
    case WakeReceiver(t) => w.(wokenReceivers := w.wokenReceivers + {t})
    case WakeSender(t) => w.(wokenSenders := w.wokenSenders + {t})
    case Reference => w.(ep := Ref(w.ep))
    case Unreference =>
      var e := Unref(w.ep);
      w.(ep := e,
         wokenReceivers := w.wokenReceivers + (if e.used then {} else SetOf(w.ep.waiters)),
         wokenSenders := w.wokenSenders + (if e.used then {} else SetOf(w.ep.senders)))
  }

  /** Woken by the endpoint itself: off the list and not run again yet. */
  ghost function Owed<T>(woken: set<T>, list: seq<T>): set<T> {
    woken - SetOf(list)
  }

  /** While receivers wait, every queued message has a woken receiver coming for it; while
      senders wait, every free slot has a woken sender coming for it. */
  ghost predicate NoLostWakeup<T>(w: World<T>) {
    && (w.ep.waiters != [] ==> w.ep.count <= |Owed(w.wokenReceivers, w.ep.waiters)|)
    && (w.ep.senders != [] ==> QUEUE_LEN - w.ep.count <= |Owed(w.wokenSenders, w.ep.senders)|)
  }

  ghost predicate Sound<T>(w: World<T>) {
    && w.ep.Shaped()
    && Distinct(w.ep.waiters) && Distinct(w.ep.senders)
    && (!w.ep.used ==> w.ep.waiters == [] && w.ep.senders == [])
    && NoLostWakeup(w)
  }

  // ---- what happens to a list and the threads owed a turn -------------------------------------

  lemma OwedAfterPop<T>(woken: set<T>, list: seq<T>)
    requires list != [] && Distinct(list)
    ensures Distinct(list[1..])
    ensures |Owed(woken + {list[0]}, list[1..])| == |Owed(woken, list)| + 1
  {
    assert list[0] !in list[1..];
    assert Owed(woken + {list[0]}, list[1..]) == Owed(woken, list) + {list[0]};
  }

  lemma {:induction false} WithoutMembers<T>(ts: seq<T>, t: T)
    requires Distinct(ts)
    ensures Distinct(Without(ts, t)) && t !in Without(ts, t)
    ensures forall u :: u != t ==> (u in Without(ts, t) <==> u in ts)
  {
    if ts != [] && ts[0] != t {
      WithoutMembers(ts[1..], t);
      var r := Without(ts[1..], t);
      forall i, j | 0 <= i < j < |[ts[0]] + r|
        ensures ([ts[0]] + r)[i] != ([ts[0]] + r)[j]
      {
        if i == 0 {
          assert ([ts[0]] + r)[j] == r[j - 1] && r[j - 1] in r;
        }
      }
    } else if ts != [] {
      assert ts[0] !in ts[1..];
    }
  }

  /** A woken thread that runs again leaves the list and stops being owed a turn. */
  lemma OwedAfterResume<T>(woken: set<T>, list: seq<T>, t: T)
    requires Distinct(list)
    ensures Distinct(Without(list, t)) && t !in Without(list, t)
    ensures Owed(woken - {t}, Without(list, t)) == Owed(woken, list) - {t}
    ensures |Owed(woken - {t}, Without(list, t))| >= |Owed(woken, list)| - 1
  {
    WithoutMembers(list, t);
  }

  lemma AppendDistinct<T>(list: seq<T>, t: T)
    requires Distinct(list) && t !in list
    ensures Distinct(list + [t])
  {
  }

  // ---- every step keeps it ------------------------------------------------------------------------

  /** The state after a thread resumes, before it looks again: the counts may be short by the
      one turn it is about to use. */
  ghost predicate Turn<T>(w: World<T>, senderTurn: nat, receiverTurn: nat) {
    && w.ep.Shaped()
    && Distinct(w.ep.waiters) && Distinct(w.ep.senders)
    && (!w.ep.used ==> w.ep.waiters == [] && w.ep.senders == [])
    && (w.ep.waiters != [] ==> w.ep.count <= |Owed(w.wokenReceivers, w.ep.waiters)| + receiverTurn)
    && (w.ep.senders != [] ==> QUEUE_LEN - w.ep.count <= |Owed(w.wokenSenders, w.ep.senders)| + senderTurn)
  }

  lemma SendKeepsSound<T>(w: World<T>, m: Msg, t: T, mayBlock: bool)
    requires Turn(w, 1, 0) && t !in w.ep.senders
    ensures Sound(Booked(w, SendAttempt(w.ep, m, t, mayBlock), m))
  {
    hide RingIndex, Owed, Distinct;
    PutShaped(w.ep, m);
    if w.ep.waiters != [] {
      OwedAfterPop(w.wokenReceivers, w.ep.waiters);
    } else {
      assert w.wokenReceivers + {} == w.wokenReceivers;
    }
    AppendDistinct(w.ep.senders, t);
  }

  lemma RecvKeepsSound<T>(w: World<T>, t: T, mayBlock: bool)
    requires Turn(w, 0, 1) && t !in w.ep.waiters
    ensures Sound(Booked(w, RecvAttempt(w.ep, t, mayBlock), NO_MSG))
  {
    hide RingIndex, Owed, Distinct;
    if w.ep.count > 0 {
      TakeContents(w.ep);
    }
    if w.ep.senders != [] {
      OwedAfterPop(w.wokenSenders, w.ep.senders);
    }
    assert w.wokenSenders + {} == w.wokenSenders;
    AppendDistinct(w.ep.waiters, t);
  }

  lemma SenderReturns<T>(w: World<T>, t: T) returns (v: World<T>)
    requires Sound(w) && t in w.wokenSenders
    ensures v == w.(wokenSenders := w.wokenSenders - {t}, ep := w.ep.(senders := Without(w.ep.senders, t)))
    ensures Turn(v, 1, 0) && t !in v.ep.senders
  {
    OwedAfterResume(w.wokenSenders, w.ep.senders, t);
    hide RingIndex, Owed, Distinct;
    v := w.(wokenSenders := w.wokenSenders - {t}, ep := w.ep.(senders := Without(w.ep.senders, t)));
  }

  lemma ReceiverReturns<T>(w: World<T>, t: T) returns (v: World<T>)
    requires Sound(w) && t in w.wokenReceivers
    ensures v == w.(wokenReceivers := w.wokenReceivers - {t}, ep := w.ep.(waiters := Without(w.ep.waiters, t)))
    ensures Turn(v, 0, 1) && t !in v.ep.waiters
  {
    OwedAfterResume(w.wokenReceivers, w.ep.waiters, t);
    hide RingIndex, Owed, Distinct;
    v := w.(wokenReceivers := w.wokenReceivers - {t}, ep := w.ep.(waiters := Without(w.ep.waiters, t)));
  }

  lemma OwedAfterOtherWakeup<T>(woken: set<T>, list: seq<T>, t: T)
    requires t in list
    ensures Owed(woken + {t}, list) == Owed(woken, list)
  {
  }

  lemma StepKeepsSound<T>(w: World<T>, step: Step<T>)
    requires Sound(w) && Enabled(w, step)
    ensures Sound(Next(w, step))
  {
    hide RingIndex, SendAttempt, RecvAttempt, Owed, Distinct, Without, Booked;
    match step
    case SendStart(t, m, b) =>
      SendKeepsSound(w, m, t, b);
    case RecvStart(t, b) =>
      RecvKeepsSound(w, t, b);
    case SendAgain(t, m, b) =>
      var v := SenderReturns(w, t);
      SendKeepsSound(v, m, t, b);
      SameBooks(w.(wokenSenders := w.wokenSenders - {t}), v, SendAttempt(v.ep, m, t, b), m);
    case RecvAgain(t, b) =>
      var v := ReceiverReturns(w, t);
      RecvKeepsSound(v, t, b);
      SameBooks(w.(wokenReceivers := w.wokenReceivers - {t}), v, RecvAttempt(v.ep, t, b), NO_MSG);
    case WakeReceiver(t) =>
      OwedAfterOtherWakeup(w.wokenReceivers, w.ep.waiters, t);
    case WakeSender(t) =>
      OwedAfterOtherWakeup(w.wokenSenders, w.ep.senders, t);
    case Reference =>
    case Unreference =>
      NothingIsDistinct<T>();
      assert w.wokenReceivers + {} == w.wokenReceivers && w.wokenSenders + {} == w.wokenSenders;
  }

  lemma NothingIsDistinct<T>()
    ensures Distinct<T>([])
  {
  }

  /** The books after an answer do not depend on the endpoint before it. */
  lemma SameBooks<T>(w: World<T>, v: World<T>, r: Result<T>, m: Msg)
    requires v == w.(ep := v.ep)
    ensures Booked(w, r, m) == Booked(v, r, m)
  {
  }

  // ---- order and capacity ------------------------------------------------------------------------------

  /** Delivered messages followed by queued ones are the accepted ones, in order; `R` bounds
      the threads that receive. */
  ghost predicate Ordered<T>(w: World<T>, R: set<T>) {
    && w.ep.Shaped() && w.ep.count <= QUEUE_LEN
    && SetOf(w.ep.waiters) + w.wokenReceivers <= R
    && w.sent == w.received + w.ep.Contents()
  }

  lemma SizeUpTo<T>(a: set<T>, b: set<T>)
    requires a <= b
    ensures |a| <= |b|
  {
    assert b == a + (b - a);
  }

  lemma {:induction false} SetOfSize<T>(ts: seq<T>)
    requires Distinct(ts)
    ensures |SetOf(ts)| == |ts|
  {
    if ts != [] {
      SetOfSize(ts[1..]);
      assert ts[0] !in ts[1..];
      assert SetOf(ts) == {ts[0]} + SetOf(ts[1..]);
    } else {
      assert SetOf(ts) == {};
    }
  }

  /** The bound the unchecked hand-over needs: a message being handed over finds a slot. */
  lemma RoomForWaiters<T>(w: World<T>, R: set<T>)
    requires Sound(w) && Ordered(w, R) && |R| <= QUEUE_LEN
    ensures w.ep.count + |w.ep.waiters| <= QUEUE_LEN
  {
    hide RingIndex;
    if w.ep.waiters != [] {
      SetOfSize(w.ep.waiters);
      var owed := Owed(w.wokenReceivers, w.ep.waiters);
      SizeUpTo(owed + SetOf(w.ep.waiters), R);
    }
  }

  lemma SendKeepsOrder<T>(w: World<T>, R: set<T>, m: Msg, t: T, mayBlock: bool)
    requires Ordered(w, R) && (w.ep.waiters != [] ==> w.ep.count < QUEUE_LEN)
    ensures Ordered(Booked(w, SendAttempt(w.ep, m, t, mayBlock), m), R)
  {
    if w.ep.count < QUEUE_LEN {
      PutContents(w.ep, m);
    }
    hide RingIndex;
    var e := SendAttempt(w.ep, m, t, mayBlock).ep;
    if e.count == w.ep.count {
      assert e.Contents() == w.ep.Contents();
    }
    if e.count == w.ep.count + 1 {
      assert e.Contents() == w.ep.Put(m).Contents();
    }
  }

  lemma RecvKeepsOrder<T>(w: World<T>, R: set<T>, t: T, mayBlock: bool)
    requires Ordered(w, R) && t in R
    ensures Ordered(Booked(w, RecvAttempt(w.ep, t, mayBlock), NO_MSG), R)
  {
    var e := RecvAttempt(w.ep, t, mayBlock).ep;
    if w.ep.count > 0 {
      TakeContents(w.ep);
      hide RingIndex;
      if w.ep.used {
        assert e.Contents() == w.ep.Take().Contents();
        assert w.sent == (w.received + [w.ep.ring[w.ep.head]]) + e.Contents();
      }
    } else {
      hide RingIndex;
      assert e.Contents() == w.ep.Contents();
    }
  }

  /** The threads that ever receive in this step are among `R`. */
  ghost predicate ReceivesWithin<T>(step: Step<T>, R: set<T>) {
    step.RecvStart? ==> step.thread in R
  }

  lemma StepKeepsOrder<T>(w: World<T>, R: set<T>, step: Step<T>)
    requires Sound(w) && Ordered(w, R) && |R| <= QUEUE_LEN && Enabled(w, step) && ReceivesWithin(step, R)
    ensures Ordered(Next(w, step), R)
  {
    hide RingIndex, SendAttempt, RecvAttempt, NoLostWakeup, Distinct;
    RoomForWaiters(w, R);
    match step
    case SendStart(t, m, b) =>
      SendKeepsOrder(w, R, m, t, b);
    case RecvStart(t, b) =>
      RecvKeepsOrder(w, R, t, b);
    case SendAgain(t, m, b) =>
      var v := w.(wokenSenders := w.wokenSenders - {t}, ep := w.ep.(senders := Without(w.ep.senders, t)));
      assert v.ep.Contents() == w.ep.Contents();
      SendKeepsOrder(v, R, m, t, b);
      SameBooks(w.(wokenSenders := w.wokenSenders - {t}), v, SendAttempt(v.ep, m, t, b), m);
    case RecvAgain(t, b) =>
      WithoutMembers(w.ep.waiters, t);
      var v := w.(wokenReceivers := w.wokenReceivers - {t}, ep := w.ep.(waiters := Without(w.ep.waiters, t)));
      assert v.ep.Contents() == w.ep.Contents();
      RecvKeepsOrder(v, R, t, b);
      SameBooks(w.(wokenReceivers := w.wokenReceivers - {t}), v, RecvAttempt(v.ep, t, b), NO_MSG);
    case WakeReceiver(t) =>
    case WakeSender(t) =>
    case Reference =>
      assert Next(w, step).ep.Contents() == w.ep.Contents();
    case Unreference =>
      assert Next(w, step).ep.Contents() == w.ep.Contents();
  }

  // ---- runs --------------------------------------------------------------------------------------------

  /** `steps` can be taken in order from `w`. */
  ghost predicate Legal<T>(w: World<T>, steps: seq<Step<T>>)
    requires w.ep.Shaped()
    decreases |steps|
  {
    steps == [] || (Enabled(w, steps[0]) && Next(w, steps[0]).ep.Shaped() && Legal(Next(w, steps[0]), steps[1..]))
  }

  ghost function Run<T>(w: World<T>, steps: seq<Step<T>>): World<T>
    requires w.ep.Shaped() && Legal(w, steps)
    decreases |steps|
  {
    if steps == [] then w else Run(Next(w, steps[0]), steps[1..])
  }

  lemma {:induction false} RunKeepsSound<T>(w: World<T>, steps: seq<Step<T>>)
    requires Sound(w) && Legal(w, steps)
    ensures Sound(Run(w, steps))
    decreases |steps|
  {
    hide Next, Enabled;
    if steps != [] {
      StepKeepsSound(w, steps[0]);
      RunKeepsSound(Next(w, steps[0]), steps[1..]);
    }
  }

  /** No run, with any number of threads, loses a wakeup. In particular, once every woken
      thread has had its turn, a blocked receiver means an empty queue and a blocked sender
      a full one. */
  lemma NoWakeupIsLost<T>(ring: seq<Msg>, steps: seq<Step<T>>)
    requires |ring| == QUEUE_LEN && Legal(Start<T>(ring), steps)
    ensures var w := Run(Start<T>(ring), steps);
      && NoLostWakeup(w)
      && (w.wokenReceivers == {} && w.ep.waiters != [] ==> w.ep.count == 0)
      && (w.wokenSenders == {} && w.ep.senders != [] ==> w.ep.count >= QUEUE_LEN)
      && (!w.ep.used ==> w.ep.waiters == [] && w.ep.senders == [])
  {
    RunKeepsSound(Start<T>(ring), steps);
    hide Run, Legal;
    var w := Run(Start<T>(ring), steps);
    assert w.wokenReceivers == {} ==> Owed(w.wokenReceivers, w.ep.waiters) == {};
    assert w.wokenSenders == {} ==> Owed(w.wokenSenders, w.ep.senders) == {};
  }

  ghost predicate AllReceiveWithin<T>(steps: seq<Step<T>>, R: set<T>) {
    forall step :: step in steps ==> ReceivesWithin(step, R)
  }

  lemma {:induction false} RunKeepsOrder<T>(w: World<T>, R: set<T>, steps: seq<Step<T>>)
    requires Sound(w) && Ordered(w, R) && |R| <= QUEUE_LEN && Legal(w, steps) && AllReceiveWithin(steps, R)
    ensures Ordered(Run(w, steps), R)
    decreases |steps|
  {
    hide Next, Enabled, ReceivesWithin;
    if steps != [] {
      assert steps[0] in steps;
      StepKeepsSound(w, steps[0]);
      StepKeepsOrder(w, R, steps[0]);
      RunKeepsOrder(Next(w, steps[0]), R, steps[1..]);
    }
  }

  /** When no more threads receive than the ring has slots, messages are delivered exactly
      once, in the order they were accepted, and a slot is always left for a hand-over. */
  lemma MessagesStayInOrder<T>(ring: seq<Msg>, R: set<T>, steps: seq<Step<T>>)
    requires |ring| == QUEUE_LEN && |R| <= QUEUE_LEN
    requires Legal(Start<T>(ring), steps) && AllReceiveWithin(steps, R)
    ensures var w := Run(Start<T>(ring), steps);
      && w.ep.Shaped()
      && w.sent == w.received + w.ep.Contents()
      && w.ep.count + |w.ep.waiters| <= QUEUE_LEN
  {
    assert Start<T>(ring).ep.Contents() == [];
    RunKeepsSound(Start<T>(ring), steps);
    RunKeepsOrder(Start<T>(ring), R, steps);
    RoomForWaiters(Run(Start<T>(ring), steps), R);
  }
}
