/** What a thread is told when it sends or receives, by what can be seen before: whether anybody
    still holds the endpoint, who waits, and how many messages were sent and not yet received. */
module IpcAnswers {
  import opened Sequences
  import opened Options
  import opened WaitLists
  import opened Ipc
  import opened IpcRuns

  /** The longest waiting thread, if any. */
  function First<T>(ts: seq<T>): Option<T> {
    if ts == [] then None else Some(ts[0])
  }

  function Rest<T>(ts: seq<T>): seq<T> {
    if ts == [] then [] else ts[1..]
  }

  // ---- one pass -----------------------------------------------------------------------------------

  /** A send succeeds exactly when somebody waits for a message or fewer than eight are queued;
      it appends the message and wakes the longest waiting receiver, if any. */
  lemma SendAnswers<T>(e: Endpoint<T>, m: Msg, self: T, mayBlock: bool)
    requires e.Shaped()
    ensures var r := SendAttempt(e, m, self, mayBlock);
      && (r.reply == NoObject <==> !e.used)
      && (r.reply.Sent? <==> e.used && (e.waiters != [] || e.count < 8))
      && (r.reply == Again <==> e.used && e.waiters == [] && e.count >= 8 && !mayBlock)
      && (r.reply == Wait <==> e.used && e.waiters == [] && e.count >= 8 && mayBlock)
      && !r.reply.Received?
    ensures var r := SendAttempt(e, m, self, mayBlock);
      && r.ep.Shaped() && r.ep.used == e.used && r.ep.refs == e.refs
      && (r.reply.Sent? ==> r.reply.woken == First(e.waiters) && r.ep.waiters == Rest(e.waiters))
      && (r.reply.Sent? ==> r.ep.senders == e.senders && r.ep.count == e.count + 1)
      && (r.reply.Sent? && e.count < 8 ==> r.ep.Contents() == e.Contents() + [m])
      && (!r.reply.Sent? ==> r.ep == e.(senders := if r.reply == Wait then e.senders + [self] else e.senders))
  {
    PutShaped(e, m);
    if e.count < 8 {
      PutContents(e, m);
      var p := e.Put(m);
      assert p.(waiters := Rest(e.waiters)).Contents() == p.Contents();
    }
    hide RingIndex;
  }

  /** A receive succeeds exactly when a message is queued; it takes the first and wakes the
      longest waiting sender, if any. */
  lemma RecvAnswers<T>(e: Endpoint<T>, self: T, mayBlock: bool)
    requires e.Shaped()
    ensures var r := RecvAttempt(e, self, mayBlock);
      && (r.reply == NoObject <==> !e.used)
      && (r.reply.Received? <==> e.used && e.count > 0)
      && (r.reply == Again <==> e.used && e.count == 0 && !mayBlock)
      && (r.reply == Wait <==> e.used && e.count == 0 && mayBlock)
      && !r.reply.Sent?
    ensures var r := RecvAttempt(e, self, mayBlock);
      && r.ep.Shaped() && r.ep.used == e.used && r.ep.refs == e.refs
      && (r.reply.Received? ==> r.reply.woken == First(e.senders) && r.ep.senders == Rest(e.senders))
      && (r.reply.Received? ==> r.ep.waiters == e.waiters && e.Contents() == [r.reply.msg] + r.ep.Contents())
      && (!r.reply.Received? ==> r.ep == e.(waiters := if r.reply == Wait then e.waiters + [self] else e.waiters))
  {
    if e.count > 0 {
      TakeContents(e);
      var t := e.Take();
      assert t.(senders := Rest(e.senders)).Contents() == t.Contents();
    }
    hide RingIndex;
  }

  // ---- how long an endpoint lives ---------------------------------------------------------------

  /** Holders after `steps`, of `h` before them; an endpoint nobody holds cannot be held again. */
  function Holders<T>(h: nat, steps: seq<Step<T>>): nat
    decreases |steps|
  {
    if steps == [] || h == 0 then h
    else Holders(if steps[0].Reference? then h + 1 else if steps[0].Unreference? then h - 1 else h, steps[1..])
  }

  ghost predicate Held<T>(e: Endpoint<T>, h: nat) {
    e.refs == h && (e.used <==> h > 0)
  }

  lemma StepKeepsHolders<T>(w: World<T>, step: Step<T>, h: nat)
    requires w.ep.Shaped() && Held(w.ep, h)
    ensures Held(Next(w, step).ep, Holders(h, [step]))
  {
    assert [step][1..] == [];
    assert Holders(h, [step]) ==
      if h == 0 then 0 else if step.Reference? then h + 1 else if step.Unreference? then h - 1 else h;
    hide RingIndex, Holders;
  }

  lemma {:induction false} RunKeepsHolders<T>(w: World<T>, steps: seq<Step<T>>, h: nat)
    requires w.ep.Shaped() && Legal(w, steps) && Held(w.ep, h)
    ensures Held(Run(w, steps).ep, Holders(h, steps))
    decreases |steps|
  {
    hide Next, Enabled, Held;
    if steps != [] {
      StepKeepsHolders(w, steps[0], h);
      assert [steps[0]][1..] == [];
      RunKeepsHolders(Next(w, steps[0]), steps[1..], Holders(h, [steps[0]]));
      DeadStaysDead(steps[1..]);
    }
  }

  lemma DeadStaysDead<T>(steps: seq<Step<T>>)
    ensures Holders(0, steps) == 0
  {
  }

  /** An endpoint lives exactly as long as somebody holds it, and retiring it leaves nobody
      waiting. */
  lemma LivesWhileHeld<T>(ring: seq<Msg>, steps: seq<Step<T>>)
    requires |ring| == QUEUE_LEN && Legal(Start<T>(ring), steps)
    ensures var w := Run(Start<T>(ring), steps);
      && (w.ep.used <==> Holders(1, steps) > 0)
      && (Holders(1, steps) == 0 ==> w.ep.waiters == [] && w.ep.senders == [])
  {
    RunKeepsHolders(Start<T>(ring), steps, 1);
    RunKeepsSound(Start<T>(ring), steps);
    hide Run, Legal, Holders;
  }

  // ---- answers in every run -----------------------------------------------------------------------

  /** In every run with at most eight receivers: a receive gets the next message that was sent
      and not yet received, and is refused or blocked exactly when there is none. */
  lemma ReceivesTheNext<T>(ring: seq<Msg>, R: set<T>, steps: seq<Step<T>>, t: T, mayBlock: bool)
    requires |ring| == QUEUE_LEN && |R| <= 8
    requires Legal(Start<T>(ring), steps) && AllReceiveWithin(steps, R)
    ensures var w := Run(Start<T>(ring), steps); w.ep.Shaped() && |w.received| <= |w.sent|
    ensures var w := Run(Start<T>(ring), steps); var r := RecvAttempt(w.ep, t, mayBlock);
      && (r.reply == NoObject <==> Holders(1, steps) == 0)
      && (r.reply.Received? <==> Holders(1, steps) > 0 && |w.received| < |w.sent|)
      && (r.reply.Received? ==> r.reply.msg == w.sent[|w.received|])
      && (r.reply == Again <==> Holders(1, steps) > 0 && |w.received| == |w.sent| && !mayBlock)
      && (r.reply == Wait <==> Holders(1, steps) > 0 && |w.received| == |w.sent| && mayBlock)
  {
    MessagesStayInOrder(ring, R, steps);
    LivesWhileHeld(ring, steps);
    hide Run, Legal, Holders, RecvAttempt, RingIndex;
    RecvAnswers(Run(Start<T>(ring), steps).ep, t, mayBlock);
  }

  /** A send is accepted exactly when a receiver waits or fewer than eight messages are under
      way. */
  lemma AcceptsExactly<T>(ring: seq<Msg>, R: set<T>, steps: seq<Step<T>>, m: Msg, t: T, mayBlock: bool)
    requires |ring| == QUEUE_LEN && |R| <= 8
    requires Legal(Start<T>(ring), steps) && AllReceiveWithin(steps, R)
    ensures var w := Run(Start<T>(ring), steps); w.ep.Shaped() && |w.received| <= |w.sent|
    ensures var w := Run(Start<T>(ring), steps); var r := SendAttempt(w.ep, m, t, mayBlock);
      && (r.reply == NoObject <==> Holders(1, steps) == 0)
      && (r.reply.Sent? <==> Holders(1, steps) > 0 && (w.ep.waiters != [] || |w.sent| - |w.received| < 8))
      && (r.reply.Sent? ==> r.reply.woken == First(w.ep.waiters))
      && (r.reply == Again <==> Holders(1, steps) > 0 && w.ep.waiters == [] && |w.sent| - |w.received| == 8 && !mayBlock)
      && (r.reply == Wait <==> Holders(1, steps) > 0 && w.ep.waiters == [] && |w.sent| - |w.received| == 8 && mayBlock)
  {
    MessagesStayInOrder(ring, R, steps);
    LivesWhileHeld(ring, steps);
    hide Run, Legal, Holders, SendAttempt, RingIndex;
    SendAnswers(Run(Start<T>(ring), steps).ep, m, t, mayBlock);
  }
}
