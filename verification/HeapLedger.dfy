/** The byte count of the heap against a ledger of what was asked for: the heap reports it as
    the bytes of live allocations, which it is exactly as long as nothing has been freed. */
module HeapLedgers {
  import opened Arithmetic
  import opened Options
  import opened HeapModel
  import opened HeapRuns
  import opened HeapPromises

  // ---- sums over a ledger -------------------------------------------------------------------------

  ghost function Pick(m: map<nat, nat>): (k: nat)
    requires |m| > 0
    ensures k in m
  {
    assert |m.Keys| > 0;
    var k :| k in m.Keys;
    k
  }

  ghost function Sum(m: map<nat, nat>): nat
    decreases |m|
  {
    if |m| == 0 then 0
    else
      var k := Pick(m);
      assert (m - {k}).Keys == m.Keys - {k};
      m[k] + Sum(m - {k})
  }

  lemma {:induction false} SumWithout(m: map<nat, nat>, k: nat)
    requires k in m
    ensures Sum(m) == m[k] + Sum(m - {k})
    decreases |m|
  {
    assert k in m.Keys;
    var j := Pick(m);
    assert (m - {j}).Keys == m.Keys - {j};
    if j != k {
      SumWithout(m - {j}, k);
      assert (m - {k}).Keys == m.Keys - {k};
      SumWithout(m - {k}, j);
      assert m - {j} - {k} == m - {k} - {j};
    }
  }

  lemma SumWith(m: map<nat, nat>, k: nat, v: nat)
    requires k !in m
    ensures Sum(m[k := v]) == Sum(m) + v
  {
    SumWithout(m[k := v], k);
    assert m[k := v] - {k} == m;
  }

  // ---- how much is handed out -----------------------------------------------------------------

  /** What a request of `n` bytes is to get: up to 2048 the smallest of 16, 32, 64 and so on to
      2048 that holds it, and beyond that its own size. No bytes count as one. */
  predicate Suits(n: nat, m: nat) {
    var wanted := if n == 0 then 1 else n;
    && wanted <= m
    && (wanted > 2048 ==> m == wanted)
    && (wanted <= 2048 ==> m in {16, 32, 64, 128, 256, 512, 1024, 2048} && (m == 16 || m < 2 * wanted))
  }

  lemma ClassSuits(size: nat)
    ensures match ClassFor(AskedFor(size), 0)
      case Some(c) => Suits(size, ClassSize(c))
      case None => Suits(size, AskedFor(size))
  {
    var c := ClassFor(AskedFor(size), 0);
    assert ClassSize(7) == 2048 && (c.Some? && c.value > 0 ==> ClassSize(c.value) == 2 * ClassSize(c.value - 1));
    if c.Some? && c.value > 0 {
      assert AskedFor(size) > ClassSize(c.value - 1);
    }
  }

  /** An allocation that succeeds makes one object live, of the size that suits the request. */
  lemma MallocSuits(h: Heap, size: nat, frame: Option<nat>) returns (m: nat)
    requires Good(h) && Allowed(h, OpMalloc(size, frame))
    ensures Suits(size, m) && |h.order| == CLASSES
    ensures var a := Malloc(h, size, frame);
      && Good(a.h) && (a.ptr.None? ==> a.h == h)
      && (a.ptr.Some? ==> Adds(h, a.h, a.ptr.value, m) && Live(a.h, a.ptr.value, m))
  {
    ClassSuits(size);
    var c := ClassFor(AskedFor(size), 0);
    hide Adds, Fresh, Suits;
    if c.Some? {
      m := ClassSize(c.value);
      MallocSmallAdds(h, c.value, AskedFor(size), frame);
    } else {
      m := AskedFor(size);
      MallocLargeAdds(h, AskedFor(size), frame);
    }
    hide Good, Live, Malloc;
    AddedIsLive(h, Malloc(h, size, frame), m);
  }

  lemma AddedIsLive(h: Heap, a: Allocated, m: nat)
    requires a.ptr.Some? ==> Adds(h, a.h, a.ptr.value, m)
    ensures a.ptr.Some? ==> Live(a.h, a.ptr.value, m)
  {
    hide Live;
  }

  // ---- the ledger ---------------------------------------------------------------------------------

  /** The bytes asked for in every allocation still held, by address. */
  function Entered(h: Heap, op: Op, ledger: map<nat, nat>): map<nat, nat>
    requires |h.order| == CLASSES
  {
    match op
    case OpMalloc(size, frame) =>
      (match Malloc(h, size, frame).ptr
       case Some(p) => ledger[p := AskedFor(size)]
       case None => ledger)
    case OpFree(p) => ledger - {p}
  }

  /** The bytes an operation asks for and gets. */
  function Granted(h: Heap, op: Op): nat
    requires |h.order| == CLASSES
  {
    if op.OpMalloc? && Malloc(h, op.size, op.frame).ptr.Some? then AskedFor(op.size) else 0
  }

  ghost predicate IsLive(h: Heap, p: nat) {
    exists m: nat :: Live(h, p, m)
  }

  /** The object at `p` is live and suits a request of `n` bytes. */
  ghost predicate Serves(h: Heap, p: nat, n: nat) {
    exists m: nat :: Live(h, p, m) && Suits(n, m)
  }

  /** The ledger lists exactly the live objects, none of them for nothing, each of a size that
      suits what was asked for. */
  ghost predicate Kept(h: Heap, ledger: map<nat, nat>) {
    && (forall p: nat :: p in ledger <==> IsLive(h, p))
    && (forall p: nat :: p in ledger ==> ledger[p] >= 1 && Serves(h, p, ledger[p]))
    && h.live == |ledger|
  }

  /** What a step does to the live objects and to the counts. */
  lemma MallocCounts(h: Heap, size: nat, frame: Option<nat>) returns (m: nat)
    requires Good(h) && Allowed(h, OpMalloc(size, frame))
    ensures |h.order| == CLASSES && Suits(AskedFor(size), m)
    ensures var a := Malloc(h, size, frame);
      && Good(a.h) && (a.ptr.None? ==> a.h == h)
      && (a.ptr.Some? ==>
            && Adds(h, a.h, a.ptr.value, m) && AskedFor(size) >= 1
            && a.h.bytes == h.bytes + AskedFor(size) && a.h.live == h.live + 1 && a.h.total == h.total + 1)
      && a.h.freed == h.freed
  {
    hide *;
    m := MallocSuits(h, size, frame);
    MallocCounters(h, size, frame);
    AsksForSomething(h, size, m);
  }

  lemma AsksForSomething(h: Heap, size: nat, m: nat)
    requires Suits(size, m)
    ensures AskedFor(size) >= 1 && Suits(AskedFor(size), m)
  {
  }

  lemma MallocCounters(h: Heap, size: nat, frame: Option<nat>)
    requires |h.order| == CLASSES
    ensures var a := Malloc(h, size, frame);
      && (a.ptr.Some? ==> a.h.bytes == h.bytes + AskedFor(size) && a.h.live == h.live + 1 && a.h.total == h.total + 1)
      && a.h.freed == h.freed
  {
    hide Objects, Capacity, LargeFrames;
    if ClassFor(AskedFor(size), 0).Some? {
      EveryClassHasRoom(ClassFor(AskedFor(size), 0).value);
    }
  }

  lemma FreeCounts(h: Heap, p: nat) returns (m: nat)
    requires Good(h) && Allowed(h, OpFree(p))
    ensures Live(h, p, m) && Good(Free(h, p)) && Removes(h, Free(h, p), p, m)
    ensures var g := Free(h, p); g.bytes == h.bytes && g.live == Dec(h.live) && g.total == h.total && g.freed == h.freed + 1
  {
    m :| Live(h, p, m);
    hide Good, Removes;
    if LiveSmall(h, p, m) {
      FreeSmall(h, p, m);
    } else {
      FreeLarge(h, p, m);
    }
  }

  lemma StepKept(h: Heap, op: Op, ledger: map<nat, nat>)
    requires Good(h) && Allowed(h, op) && Kept(h, ledger)
    ensures |h.order| == CLASSES && Kept(Step(h, op), Entered(h, op, ledger))
    ensures Step(h, op).bytes == h.bytes + Granted(h, op)
    ensures Step(h, op).total == h.total + (if Granted(h, op) > 0 then 1 else 0)
    ensures Step(h, op).freed == h.freed + (if op.OpFree? then 1 else 0)
    ensures op.OpMalloc? ==> Sum(Entered(h, op, ledger)) == Sum(ledger) + Granted(h, op)
    ensures Step(h, op).live == |Entered(h, op, ledger)| && (op.OpFree? ==> Granted(h, op) == 0)
    ensures op.OpFree? ==> op.p in ledger && Sum(ledger) == Sum(Entered(h, op, ledger)) + ledger[op.p] && ledger[op.p] >= 1
  {
    hide Good, Allowed, Kept, Malloc, Free, Sum;
    GoodOrder(h);
    match op {
      case OpMalloc(size, frame) => MallocKept(h, size, frame, ledger);
      case OpFree(p) => FreeKept(h, p, ledger);
    }
    KeptSize(Step(h, op), Entered(h, op, ledger));
  }

  lemma KeptSize(h: Heap, ledger: map<nat, nat>)
    requires Kept(h, ledger)
    ensures h.live == |ledger|
  {
  }

  lemma GoodOrder(h: Heap)
    requires Good(h)
    ensures |h.order| == CLASSES
  {
  }

  lemma MallocKept(h: Heap, size: nat, frame: Option<nat>, ledger: map<nat, nat>)
    requires Good(h) && Allowed(h, OpMalloc(size, frame)) && Kept(h, ledger) && |h.order| == CLASSES
    ensures var a, n := Malloc(h, size, frame), AskedFor(size);
      match a.ptr
      case None => a.h == h
      case Some(p) =>
        && Kept(a.h, ledger[p := n]) && a.h.bytes == h.bytes + n && Sum(ledger[p := n]) == Sum(ledger) + n && n >= 1
        && a.h.total == h.total + 1 && a.h.freed == h.freed
  {
    hide *;
    var m := MallocCounts(h, size, frame);
    var a := Malloc(h, size, frame);
    if a.ptr.Some? {
      var p := a.ptr.value;
      OneMoreLive(h, a.h, p, m);
      StillServes(h, a.h, p, m, AskedFor(size));
      KeptWith(h, a.h, p, AskedFor(size), ledger);
    }
  }

  lemma StillServes(h: Heap, g: Heap, p: nat, m: nat, n: nat)
    requires Adds(h, g, p, m) && Suits(n, m)
    ensures Serves(g, p, n) && forall q: nat, k: nat :: Serves(h, q, k) ==> Serves(g, q, k)
  {
    hide Live, Suits;
    assert Live(g, p, m);
    forall q: nat, k: nat | Serves(h, q, k) ensures Serves(g, q, k) {
      var l: nat :| Live(h, q, l) && Suits(k, l);
      assert Live(g, q, l);
    }
  }

  lemma KeptWith(h: Heap, g: Heap, p: nat, n: nat, ledger: map<nat, nat>)
    requires Kept(h, ledger) && !IsLive(h, p) && forall q: nat :: IsLive(g, q) <==> IsLive(h, q) || q == p
    requires Serves(g, p, n) && (forall q: nat, k: nat :: Serves(h, q, k) ==> Serves(g, q, k)) && g.live == h.live + 1
    ensures n >= 1 ==> Kept(g, ledger[p := n])
    ensures Sum(ledger[p := n]) == Sum(ledger) + n
  {
    hide IsLive, Sum, Serves;
    SumWith(ledger, p, n);
    assert ledger[p := n].Keys == ledger.Keys + {p};
  }

  lemma FreeKept(h: Heap, p: nat, ledger: map<nat, nat>)
    requires Good(h) && Allowed(h, OpFree(p)) && Kept(h, ledger)
    ensures p in ledger && ledger[p] >= 1
    ensures var g := Free(h, p); g.bytes == h.bytes && g.total == h.total && g.freed == h.freed + 1
    ensures Kept(Free(h, p), ledger - {p}) && Sum(ledger) == Sum(ledger - {p}) + ledger[p]
  {
    hide *;
    var m := FreeCounts(h, p);
    OneLessLive(h, Free(h, p), p, m);
    OthersServe(h, Free(h, p), p, m);
    DecIs(h.live);
    KeptWithout(h, Free(h, p), p, ledger);
  }

  lemma DecIs(n: nat)
    ensures Dec(n) == if n > 0 then n - 1 else 0
  {
  }

  lemma OthersServe(h: Heap, g: Heap, p: nat, m: nat)
    requires Removes(h, g, p, m)
    ensures forall q: nat, k: nat :: q != p && Serves(h, q, k) ==> Serves(g, q, k)
  {
    hide Live, Suits;
    forall q: nat, k: nat | q != p && Serves(h, q, k) ensures Serves(g, q, k) {
      var l: nat :| Live(h, q, l) && Suits(k, l);
      assert Live(g, q, l);
    }
  }

  lemma KeptWithout(h: Heap, g: Heap, p: nat, ledger: map<nat, nat>)
    requires Kept(h, ledger) && IsLive(h, p) && forall q: nat :: IsLive(g, q) <==> IsLive(h, q) && q != p
    requires forall q: nat, k: nat :: q != p && Serves(h, q, k) ==> Serves(g, q, k)
    requires g.live == if h.live > 0 then h.live - 1 else 0
    ensures p in ledger && ledger[p] >= 1 && Kept(g, ledger - {p}) && Sum(ledger) == Sum(ledger - {p}) + ledger[p]
  {
    hide IsLive, Sum, Serves;
    SumWithout(ledger, p);
    assert p in ledger.Keys;
    assert (ledger - {p}).Keys == ledger.Keys - {p};
  }

  lemma OneMoreLive(h: Heap, g: Heap, p: nat, m: nat)
    requires Good(g) && Adds(h, g, p, m)
    ensures !IsLive(h, p) && forall q: nat :: IsLive(g, q) <==> IsLive(h, q) || q == p
  {
    hide Good, Live;
    assert Live(g, p, m);
    if IsLive(h, p) {
      var n: nat :| Live(h, p, n);
      assert Live(g, p, n);
      OneSize(g, p, m, n);
    }
    forall q: nat | IsLive(h, q) ensures IsLive(g, q) {
      var n: nat :| Live(h, q, n);
      assert Live(g, q, n);
    }
  }

  lemma OneLessLive(h: Heap, g: Heap, p: nat, m: nat)
    requires Good(h) && Live(h, p, m) && Removes(h, g, p, m)
    ensures IsLive(h, p) && forall q: nat :: IsLive(g, q) <==> IsLive(h, q) && q != p
  {
    hide Good, Live;
    forall q: nat | IsLive(g, q) ensures IsLive(h, q) && q != p {
      var n: nat :| Live(g, q, n);
      assert Live(h, q, n);
      if q == p {
        OneSize(h, p, m, n);
      }
    }
    forall q: nat | IsLive(h, q) && q != p ensures IsLive(g, q) {
      var n: nat :| Live(h, q, n);
      assert Live(g, q, n);
    }
  }

  // ---- every run ------------------------------------------------------------------------------------

  /** All the states of a run have their classes. */
  ghost predicate Run(states: seq<Heap>, ops: seq<Op>) {
    Runs(states, ops) && forall i :: 0 <= i < |states| ==> |states[i].order| == CLASSES
  }

  lemma RunsAre(states: seq<Heap>, ops: seq<Op>)
    requires Runs(states, ops)
    ensures Run(states, ops)
  {
    forall i | 0 <= i < |states| ensures |states[i].order| == CLASSES {
      RunsStayGood(states, ops, i);
    }
  }

  ghost function Ledger(states: seq<Heap>, ops: seq<Op>, i: nat): map<nat, nat>
    requires Run(states, ops) && i <= |ops|
  {
    if i == 0 then map[] else Entered(states[i - 1], ops[i - 1], Ledger(states, ops, i - 1))
  }

  /** Everything granted so far. */
  ghost function Requested(states: seq<Heap>, ops: seq<Op>, i: nat): nat
    requires Run(states, ops) && i <= |ops|
  {
    if i == 0 then 0 else Requested(states, ops, i - 1) + Granted(states[i - 1], ops[i - 1])
  }

  /** How many allocations succeeded so far, and how many objects were freed. */
  ghost function Succeeded(states: seq<Heap>, ops: seq<Op>, i: nat): nat
    requires Run(states, ops) && i <= |ops|
  {
    if i == 0 then 0 else Succeeded(states, ops, i - 1) + if Granted(states[i - 1], ops[i - 1]) > 0 then 1 else 0
  }

  function Frees(ops: seq<Op>, i: nat): nat
    requires i <= |ops|
  {
    if i == 0 then 0 else Frees(ops, i - 1) + if ops[i - 1].OpFree? then 1 else 0
  }

  /** Everything given back so far. */
  ghost function Returned(states: seq<Heap>, ops: seq<Op>, i: nat): nat
    requires Run(states, ops) && i <= |ops|
  {
    if i == 0 then 0
    else
      var ledger := Ledger(states, ops, i - 1);
      Returned(states, ops, i - 1)
        + match ops[i - 1]
          case OpFree(p) => if p in ledger then ledger[p] else 0
          case OpMalloc(_, _) => 0
  }

  lemma {:induction false} LedgerIsKept(states: seq<Heap>, ops: seq<Op>, i: nat)
    requires Run(states, ops) && i <= |ops|
    ensures |states| == |ops| + 1 && Kept(states[i], Ledger(states, ops, i))
    ensures states[i].bytes == Requested(states, ops, i)
    ensures Requested(states, ops, i) == Sum(Ledger(states, ops, i)) + Returned(states, ops, i)
    ensures Returned(states, ops, i) == 0 <==> forall k :: 0 <= k < i ==> !ops[k].OpFree?
    ensures states[i].total == Succeeded(states, ops, i) && states[i].freed == Frees(ops, i)
    ensures states[i].live == |Ledger(states, ops, i)|
  {
    hide *;
    if i == 0 {
      LedgerStarts(states, ops);
    } else {
      LedgerStep(states, ops, i);
      var h, op := states[i - 1], ops[i - 1];
      LedgerIsKept(states, ops, i - 1);
      RunsStayGood(states, ops, i - 1);
      StepKept(h, op, Ledger(states, ops, i - 1));
    }
  }

  lemma LedgerStep(states: seq<Heap>, ops: seq<Op>, i: nat)
    requires Run(states, ops) && 0 < i <= |ops|
    ensures |states| == |ops| + 1 && |states[i - 1].order| == CLASSES && Runs(states, ops)
    ensures var h, op, ledger := states[i - 1], ops[i - 1], Ledger(states, ops, i - 1);
      && Allowed(h, op) && states[i] == Step(h, op)
      && Ledger(states, ops, i) == Entered(h, op, ledger)
      && Requested(states, ops, i) == Requested(states, ops, i - 1) + Granted(h, op)
      && Returned(states, ops, i)
           == Returned(states, ops, i - 1) + (if op.OpFree? && op.p in ledger then ledger[op.p] else 0)
      && Succeeded(states, ops, i) == Succeeded(states, ops, i - 1) + (if Granted(h, op) > 0 then 1 else 0)
      && Frees(ops, i) == Frees(ops, i - 1) + (if op.OpFree? then 1 else 0)
  {
    hide Allowed, Step, Entered, Granted;
  }

  lemma LedgerStarts(states: seq<Heap>, ops: seq<Op>)
    requires Run(states, ops)
    ensures |states| == |ops| + 1
    ensures Kept(states[0], Ledger(states, ops, 0)) && states[0].bytes == 0 && states[0].live == 0
    ensures Requested(states, ops, 0) == 0 && Returned(states, ops, 0) == 0 && Sum(Ledger(states, ops, 0)) == 0
    ensures states[0].total == Succeeded(states, ops, 0) && states[0].freed == Frees(ops, 0) && Ledger(states, ops, 0) == map[]
  {
    NothingIsLive();
    hide Kept;
  }

  lemma NothingIsLive()
    ensures Kept(Empty(), map[])
  {
  }

  /** The count is the sum of all requests ever granted. The ledger of a run lists exactly the
      live objects, and the count is what they asked for if and only if nothing was ever freed. */
  lemma BytesAreLiveExactly(states: seq<Heap>, ops: seq<Op>, i: nat)
    requires Runs(states, ops) && i <= |ops|
    ensures Run(states, ops)
    ensures forall p: nat :: p in Ledger(states, ops, i) <==> IsLive(states[i], p)
    ensures states[i].bytes == Requested(states, ops, i)
    ensures states[i].bytes == Sum(Ledger(states, ops, i)) <==> forall k :: 0 <= k < i ==> !ops[k].OpFree?
  {
    RunsAre(states, ops);
    LedgerIsKept(states, ops, i);
  }

  /** In every state of every run the ranges handed out, each as long as what was asked for, are
      pairwise disjoint, as long as no request was too large for its frames. */
  lemma RequestsAreDisjoint(states: seq<Heap>, ops: seq<Op>, i: nat, p: nat, q: nat)
    requires Run(states, ops) && i <= |ops|
    requires p in Ledger(states, ops, i) && q in Ledger(states, ops, i) && p != q
    requires Moderate(Ledger(states, ops, i)[p]) && Moderate(Ledger(states, ops, i)[q])
    ensures var ledger := Ledger(states, ops, i); p + ledger[p] <= q || q + ledger[q] <= p
  {
    LedgerIsKept(states, ops, i);
    RunsStayGood(states, ops, i);
    var ledger := Ledger(states, ops, i);
    hide Run, Good, Live, Ledger;
    assert Serves(states[i], p, ledger[p]) && Serves(states[i], q, ledger[q]);
    var m: nat :| Live(states[i], p, m) && Suits(ledger[p], m);
    var n: nat :| Live(states[i], q, n) && Suits(ledger[q], n);
    LiveObjectsAreDisjoint(states[i], p, m, q, n);
  }

  /** One allocation, freed again: nothing is live, and the count says 2048 bytes are. */
  lemma FreedBytesAreCounted() returns (states: seq<Heap>, ops: seq<Op>)
    ensures Runs(states, ops) && |ops| == 2
    ensures (forall p: nat :: !IsLive(states[2], p)) && states[2].bytes == 2048
  {
    var p := ObjectAt(1, 7, 0);
    ops := [OpMalloc(2048, Some(1)), OpFree(p)];
    var h := Filled(Empty(), 1);
    OneSlabMore(Empty(), 1);
    states := [Empty(), h, Free(h, p)];
    assert Fresh(Empty(), 1, 1);
    OneIsLive(h, p);
    NoneIsLive(h, p);
    hide ObjectAt, Objects, Capacity, ClassFor, Malloc, LargeFrames, Live, Fresh, HeadHasRoom;
  }

  lemma OneIsLive(h: Heap, p: nat)
    requires h == Filled(Empty(), 1) && p == ObjectAt(1, 7, 0)
    ensures Live(h, p, 2048) && Free(h, p).bytes == 2048
  {
    OneEach(1);
    assert h.slabs[1] == Slab(7, 1, []);
    assert LiveAt(h, p, 2048, 1, 0);
  }

  lemma NoneIsLive(h: Heap, p: nat)
    requires h == Filled(Empty(), 1) && p == ObjectAt(1, 7, 0)
    ensures forall q: nat :: !IsLive(Free(h, p), q)
  {
    OneEach(1);
    var g := Free(h, p);
    assert g.slabs == map[1 := Slab(7, 0, [p])];
    forall q: nat, m: nat ensures !Live(g, q, m) {
    }
  }
}
