/** The bound on receivers is needed: with one receiver more than the ring has slots, the
    hand-over branch overwrites a message. */
module IpcOverflow {
  import opened Sequences
  import opened WaitLists
  import opened Ipc
  import opened IpcRuns

  lemma {:induction false} RunThen<T>(w: World<T>, a: seq<Step<T>>, step: Step<T>)
    requires w.ep.Shaped() && Legal(w, a) && Run(w, a).ep.Shaped()
    requires Enabled(Run(w, a), step) && Next(Run(w, a), step).ep.Shaped()
    ensures Legal(w, a + [step]) && Run(w, a + [step]) == Next(Run(w, a), step)
    decreases |a|
  {
    hide Next, Enabled;
    if a == [] {
      assert a + [step] == [step] && [step][1..] == [];
      assert Legal(Next(w, step), []);
    } else {
      assert (a + [step])[1..] == a[1..] + [step];
      RunThen(Next(w, a[0]), a[1..], step);
    }
  }

  function Numbered(k: nat): Msg {
    Msg(k, [], [])
  }

  function Accepted(n: nat): (ms: seq<Msg>)
    ensures |ms| == n
  {
    seq(n, k requires 0 <= k => Numbered(k))
  }

  ghost function Blocking<T>(ts: seq<T>): (steps: seq<Step<T>>)
    ensures |steps| == |ts|
  {
    seq(|ts|, i requires 0 <= i < |ts| => RecvStart(ts[i], true))
  }

  /** Receivers that find the queue empty block in the order they come. */
  lemma {:induction false} AllBlock<T>(ring: seq<Msg>, ts: seq<T>)
    requires |ring| == QUEUE_LEN && Distinct(ts)
    ensures Legal(Start<T>(ring), Blocking(ts))
    ensures Run(Start<T>(ring), Blocking(ts)) == World(Endpoint(true, 1, ring, 0, 0, 0, ts, []), {}, {}, [], [])
  {
    if ts != [] {
      var n := |ts| - 1;
      AllBlock(ring, ts[..n]);
      assert ts[n] !in ts[..n];
      assert Blocking(ts) == Blocking(ts[..n]) + [RecvStart(ts[n], true)];
      RunThen(Start<T>(ring), Blocking(ts[..n]), RecvStart(ts[n], true));
      assert ts == ts[..n] + [ts[n]];
    }
  }

  ghost function Filling<T>(sender: T, n: nat): (steps: seq<Step<T>>)
    ensures |steps| == n
  {
    seq(n, k requires 0 <= k => SendStart(sender, Numbered(k), true))
  }

  ghost predicate HandedOver<T>(w: World<T>, ts: seq<T>, k: nat) {
    && k <= |ts|
    && w.ep.Shaped() && w.ep.used && w.ep.head == 0 && w.ep.count == k
    && w.ep.waiters == ts[k..] && w.ep.senders == []
    && w.wokenReceivers == SetOf(ts[..k]) && w.wokenSenders == {}
    && w.sent == Accepted(k) && w.received == []
  }

  lemma OneHandedOver<T>(v: World<T>, ts: seq<T>, sender: T, k: nat)
    requires HandedOver(v, ts, k) && k < |ts| && sender !in ts
    ensures var step := SendStart(sender, Numbered(k), true);
      && Enabled(v, step)
      && HandedOver(Next(v, step), ts, k + 1)
      && Next(v, step).ep.ring == v.ep.ring[k % QUEUE_LEN := Numbered(k)]
  {
    PutShaped(v.ep, Numbered(k));
    assert ts[k..][1..] == ts[k + 1..] && ts[k..][0] == ts[k];
    assert ts[..k + 1] == ts[..k] + [ts[k]];
    assert SetOf(ts[..k + 1]) == SetOf(ts[..k]) + {ts[k]};
    assert Accepted(k + 1) == Accepted(k) + [Numbered(k)];
  }

  /** Each message goes straight to the thread that has waited longest, whatever the ring
      holds. */
  lemma {:induction false} AllHandedOver<T>(w: World<T>, ts: seq<T>, sender: T, k: nat)
    requires HandedOver(w, ts, 0) && k <= |ts| && sender !in ts
    ensures Legal(w, Filling(sender, k)) && HandedOver(Run(w, Filling(sender, k)), ts, k)
    ensures k == QUEUE_LEN + 1 ==> Run(w, Filling(sender, k)).ep.ring[0] == Numbered(QUEUE_LEN)
  {
    hide Next, Enabled, Idle;
    if k > 0 {
      AllHandedOver(w, ts, sender, k - 1);
      OneHandedOver(Run(w, Filling(sender, k - 1)), ts, sender, k - 1);
      var step := SendStart(sender, Numbered(k - 1), true);
      assert Filling(sender, k) == Filling(sender, k - 1) + [step];
      RunThen(w, Filling(sender, k - 1), step);
    }
  }

  lemma {:induction false} PickDistinct<T>(R: set<T>, n: nat) returns (ts: seq<T>)
    requires |R| >= n
    ensures |ts| == n && Distinct(ts) && forall t :: t in ts ==> t in R
  {
    if n == 0 {
      ts := [];
    } else {
      var r :| r in R;
      var more := PickDistinct(R - {r}, n - 1);
      ts := more + [r];
    }
  }

  /** QUEUE_LEN + 1 receivers block, as many messages are handed over, and the first receiver
      to run gets the last message instead of the first. */
  lemma OverflowReorders<T>(ring: seq<Msg>, R: set<T>, sender: T) returns (steps: seq<Step<T>>)
    requires |ring| == QUEUE_LEN && |R| > QUEUE_LEN && sender !in R
    ensures Legal(Start<T>(ring), steps) && AllReceiveWithin(steps, R)
    ensures var w := Run(Start<T>(ring), steps); !(w.received <= w.sent)
  {
    var ts := PickDistinct(R, QUEUE_LEN + 1);
    AllBlock(ring, ts);
    var w1 := Run(Start<T>(ring), Blocking(ts));
    AllHandedOver(w1, ts, sender, QUEUE_LEN + 1);
    var w2 := Run(w1, Filling(sender, QUEUE_LEN + 1));
    RunConcat(Start<T>(ring), Blocking(ts), Filling(sender, QUEUE_LEN + 1));
    var so_far := Blocking(ts) + Filling(sender, QUEUE_LEN + 1);
    var last := RecvAgain(ts[0], true);
    assert ts[..QUEUE_LEN + 1] == ts && ts[0] in ts;
    assert ts[QUEUE_LEN + 1..] == [];
    assert Without<T>([], ts[0]) == [];
    TakeContents(w2.ep);
    RunThen(Start<T>(ring), so_far, last);
    steps := so_far + [last];
    var w := Run(Start<T>(ring), steps);
    assert w.received == [Numbered(QUEUE_LEN)];
    assert w.sent[0] == Numbered(0);
  }

  lemma {:induction false} RunConcat<T>(w: World<T>, a: seq<Step<T>>, b: seq<Step<T>>)
    requires w.ep.Shaped() && Legal(w, a) && Run(w, a).ep.Shaped() && Legal(Run(w, a), b)
    ensures Legal(w, a + b) && Run(w, a + b) == Run(Run(w, a), b)
    decreases |a|
  {
    hide Next, Enabled;
    if a == [] {
      assert a + b == b;
    } else {
      assert (a + b)[1..] == a[1..] + b;
      RunConcat(Next(w, a[0]), a[1..], b);
    }
  }

  /** Deliveries follow acceptance order in every run whose receivers are among `R` exactly
      when `R` has at most QUEUE_LEN threads. */
  lemma OrderNeedsTheBound<T(!new)>(ring: seq<Msg>, R: set<T>, sender: T)
    requires |ring| == QUEUE_LEN && sender !in R
    ensures |R| <= QUEUE_LEN <==>
      forall steps: seq<Step<T>> :: Legal(Start<T>(ring), steps) && AllReceiveWithin(steps, R) ==>
        var w := Run(Start<T>(ring), steps); w.received <= w.sent
  {
    hide Legal, Run, AllReceiveWithin;
    if |R| <= QUEUE_LEN {
      forall steps: seq<Step<T>> | Legal(Start<T>(ring), steps) && AllReceiveWithin(steps, R)
        ensures var w := Run(Start<T>(ring), steps); w.received <= w.sent
      {
        MessagesStayInOrder(ring, R, steps);
      }
    } else {
      var steps := OverflowReorders(ring, R, sender);
    }
  }
}
