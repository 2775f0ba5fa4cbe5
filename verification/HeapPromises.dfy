/** What the heap's comments promise and the code does not do, with the runs that show it and the
    exact conditions: room in older slabs of a class, and the bytes of live allocations. */
module HeapPromises {
  import opened Arithmetic
  import opened Sequences
  import opened Options
  import opened HeapModel
  import opened HeapRuns

  // ---- older slabs ------------------------------------------------------------------------------

  /** Some slab of the class has a free object. */
  predicate RoomSomewhere(h: Heap, c: nat)
    requires c < |h.order|
  {
    exists i :: 0 <= i < |h.order[c]| && h.order[c][i] in h.slabs && h.slabs[h.order[c][i]].free != []
  }

  /** Without a new frame, an allocation succeeds exactly when there is room if and only if any
      room there is is in the newest slab. */
  lemma RoomIsUsedExactly(h: Heap, c: nat, size: nat)
    requires Good(h) && c < CLASSES
    ensures (MallocSmall(h, c, size, None).ptr.Some? <==> RoomSomewhere(h, c)) <==>
      (RoomSomewhere(h, c) ==> HeadHasRoom(h, c))
  {
  }

  /** And with a frame to be had, no slab is opened beside room exactly then. */
  lemma FramesAreSparedExactly(h: Heap, c: nat, size: nat, f: nat)
    requires Good(h) && c < CLASSES
    ensures (RoomSomewhere(h, c) ==> MallocSmall(h, c, size, Some(f)).h.order == h.order) <==>
      (RoomSomewhere(h, c) ==> HeadHasRoom(h, c))
  {
    hide Objects, Capacity;
    EveryClassHasRoom(c);
    assert |WithSlab(h, c, f).order[c]| == |h.order[c]| + 1;
  }

  /** Slab `f` is in class `c`, and not its newest. */
  ghost predicate Behind(h: Heap, c: nat, f: nat) {
    c < |h.order| && exists k :: 0 < k < |h.order[c]| && h.order[c][k] == f
  }

  /** Slab `f` is there and its free list has only grown. */
  ghost predicate KeepsFree(h: Heap, g: Heap, f: nat) {
    f in h.slabs && f in g.slabs && forall p :: p in h.slabs[f].free ==> p in g.slabs[f].free
  }

  lemma MallocKeepsBehind(h: Heap, c: nat, f: nat, d: nat, size: nat, frame: Option<nat>)
    requires Good(h) && c < CLASSES && Behind(h, c, f) && d < CLASSES
    requires frame.Some? ==> Fresh(h, frame.value, 1)
    ensures var g := MallocSmall(h, d, size, frame).h; Behind(g, c, f) && KeepsFree(h, g, f)
  {
    var k :| 0 < k < |h.order[c]| && h.order[c][k] == f;
    assert f in h.slabs && h.slabs[f].cls == c;
    hide Objects, Capacity, SlabGood;
    if HeadHasRoom(h, d) {
      assert h.order[d][0] != f;
    } else if frame.Some? {
      EveryClassHasRoom(d);
      assert !Taken(h, frame.value);
      var g := MallocSmall(h, d, size, frame).h;
      assert g.order[c][if d == c then k + 1 else k] == f;
    }
  }

  lemma StepKeepsBehind(h: Heap, op: Op, c: nat, f: nat)
    requires Good(h) && Allowed(h, op) && c < CLASSES && Behind(h, c, f)
    ensures |h.order| == CLASSES && Behind(Step(h, op), c, f) && KeepsFree(h, Step(h, op), f)
  {
    hide MallocSmall, SlabGood;
    assert f in h.slabs;
    match op
    case OpMalloc(size, frame) =>
      var d := ClassFor(AskedFor(size), 0);
      if d.Some? {
        hide Behind, KeepsFree;
        MallocKeepsBehind(h, c, f, d.value, AskedFor(size), frame);
      }
    case OpFree(p) =>
  }

  /** A slab that is no longer the newest of its class never serves an allocation again: its
      free objects stay free in every later state of the run. */
  lemma {:induction false} StrandedForEver(states: seq<Heap>, ops: seq<Op>, i: nat, j: nat, c: nat, f: nat)
    requires Runs(states, ops) && i <= j < |states| && c < CLASSES && Behind(states[i], c, f)
    ensures Behind(states[j], c, f) && KeepsFree(states[i], states[j], f)
    decreases j
  {
    RunsStayGood(states, ops, i);
    if i == j {
      assert |states[i].order| == CLASSES;
    } else {
      StrandedForEver(states, ops, i, j - 1, c, f);
      RunsStayGood(states, ops, j - 1);
      hide Step, Good, Allowed, Behind;
      StepKeepsBehind(states[j - 1], ops[j - 1], c, f);
    }
  }

  /** Two slabs of one object each, the first freed: the next allocation fails with that object
      free, unless it gets a frame. */
  lemma RoomIsRefused() returns (states: seq<Heap>, ops: seq<Op>)
    ensures Runs(states, ops) && |ops| == 3 && |states[3].order| == CLASSES
    ensures RoomSomewhere(states[3], 7) && !HeadHasRoom(states[3], 7)
    ensures Malloc(states[3], 2048, None) == Allocated(states[3], None)
  {
    var p := ObjectAt(1, 7, 0);
    ops := [OpMalloc(2048, Some(1)), OpMalloc(2048, Some(2)), OpFree(p)];
    var h1 := Filled(Empty(), 1);
    var h2 := Filled(h1, 2);
    states := [Empty(), h1, h2, Free(h2, p)];
    OneEach(1);
    OneSlabMore(Empty(), 1);
    OneSlabMore(h1, 2);
    assert Fresh(Empty(), 1, 1) && Fresh(h1, 2, 1);
    TwoSlabs(h2, p);
    hide *;
    ThreeSteps(h1, h2, Free(h2, p), ops[0], ops[1], ops[2]);
  }

  lemma ThreeSteps(a: Heap, b: Heap, c: Heap, first: Op, second: Op, third: Op)
    requires |Empty().order| == |a.order| == |b.order| == CLASSES
    requires Allowed(Empty(), first) && a == Step(Empty(), first)
    requires Allowed(a, second) && b == Step(a, second)
    requires Allowed(b, third) && c == Step(b, third)
    ensures Runs([Empty(), a, b, c], [first, second, third])
  {
    hide Allowed, Step, Empty;
  }

  /** Freeing the object of the first of two full slabs. */
  lemma TwoSlabs(h: Heap, p: nat)
    requires h == Filled(Filled(Empty(), 1), 2) && p == ObjectAt(1, 7, 0)
    ensures Allowed(h, OpFree(p)) && |h.order| == CLASSES && Step(h, OpFree(p)) == Free(h, p)
    ensures var g := Free(h, p);
      && |g.order| == CLASSES && RoomSomewhere(g, 7) && !HeadHasRoom(g, 7)
      && Malloc(g, 2048, None) == Allocated(g, None)
  {
    OneEach(1);
    assert LiveAt(h, p, 2048, 1, 0);
    assert Live(h, p, 2048);
    hide ObjectAt, Capacity, Objects, ClassFor, Live;
    var g := Free(h, p);
    assert h.order[7] == [2, 1] == g.order[7] && g.slabs[1].free == [p] && g.slabs[2].free == [];
    assert g.order[7][1] == 1;
    OneSlabMore(g, 3);
  }

  /** The heap after one more slab of the largest class has been opened and its object taken. */
  function Filled(h: Heap, f: nat): (g: Heap)
    requires |h.order| == CLASSES
    ensures |g.order| == CLASSES
  {
    h.(slabs := h.slabs[f := Slab(7, 1, [])], order := h.order[7 := [f] + h.order[7]],
       bytes := h.bytes + 2048, live := h.live + 1, total := h.total + 1)
  }

  lemma OneSlabMore(h: Heap, f: nat)
    requires |h.order| == CLASSES && !HeadHasRoom(h, 7)
    ensures Step(h, OpMalloc(2048, Some(f))) == Filled(h, f)
    ensures Fresh(h, f, 1) ==> Allowed(h, OpMalloc(2048, Some(f)))
    ensures Malloc(h, 2048, None) == Allocated(h, None)
  {
    OneEach(f);
    hide ObjectAt, Capacity, Objects, ClassFor;
    var g := WithSlab(h, 7, f);
    var p := ObjectAt(f, 7, 0);
    assert g.slabs[f] == Slab(7, 0, [p]) && [p][1..] == [];
    assert Take(g, f, 2048).0.slabs == Filled(h, f).slabs;
  }

  /** A slab of the largest class has one object. */
  lemma OneEach(f: nat)
    ensures Capacity(7) == 1 && Objects(f, 7, 0) == [ObjectAt(f, 7, 0)] && ObjectAt(f, 7, 0) / 4096 == f
    ensures ClassFor(2048, 0) == Some(7)
  {
    assert Objects(f, 7, 1) == [];
    assert ClassFor(2048, 7) == Some(7);
    assert ClassFor(2048, 4) == ClassFor(2048, 5) == ClassFor(2048, 6) == Some(7);
    assert ClassFor(2048, 1) == ClassFor(2048, 2) == ClassFor(2048, 3) == ClassFor(2048, 4);
  }

  // ---- huge requests ----------------------------------------------------------------------------

  /** At the end of the run two live objects of this size share an address. */
  ghost predicate EndsInOverlap(states: seq<Heap>, ops: seq<Op>, p: nat, q: nat, size: nat) {
    && Runs(states, ops) && Live(states[|ops|], p, size) && Live(states[|ops|], q, size)
    && p != q && p < q + size && q < p + size
  }

  /** Live objects of a size overlap at the end of some run if and only if the frame count for
      it does not fit 32 bits and something is left of it after the cut. */
  lemma OverlapExactly(size: nat)
    ensures (exists states, ops, p, q :: EndsInOverlap(states, ops, p, q, size)) <==>
      !Moderate(size) && LargeFrames(size) > 0
  {
    hide Runs, Live, LargeFrames;
    if states, ops, p, q :| EndsInOverlap(states, ops, p, q, size) {
      if Moderate(size) {
        RunLength(states, ops);
        LiveObjectsStayDisjoint(states, ops, |ops|, p, size, q, size);
      }
      RunLength(states, ops);
      RunsStayGood(states, ops, |ops|);
      LiveSizes(states[|ops|], p, size);
    }
    if !Moderate(size) && LargeFrames(size) > 0 {
      var states, ops := HugeObjectsOverlap(size);
    }
  }

  lemma RunLength(states: seq<Heap>, ops: seq<Op>)
    requires Runs(states, ops)
    ensures |states| == |ops| + 1
  {
  }

  lemma LiveSizes(h: Heap, p: nat, m: nat)
    requires Good(h) && Live(h, p, m)
    ensures Moderate(m) || LargeFrames(m) > 0
  {
    hide LargeFrames;
    if LiveLarge(h, p, m) {
      var b :| b in h.large && p == 4096 * b + TRAILER && m == h.large[b].size;
      assert LargeGood(b, h.large[b]);
    }
  }

  /** Two requests of such a size, one after the other, in neighbouring frames. */
  lemma HugeObjectsOverlap(size: nat) returns (states: seq<Heap>, ops: seq<Op>)
    requires !Moderate(size) && LargeFrames(size) > 0
    ensures |ops| == 2 && EndsInOverlap(states, ops, 4096 + TRAILER, 4096 * (1 + LargeFrames(size)) + TRAILER, size)
  {
    LargeFitsExactly(size);
    var n := LargeFrames(size);
    hide LargeFrames;
    ops := [OpMalloc(size, Some(1)), OpMalloc(size, Some(1 + n))];
    var one, two := Large(n, size), map[1 := Large(n, size), 1 + n := Large(n, size)];
    var h1 := Heap(map[], Empty().order, map[1 := one], size, 1, 1, 0);
    var h2 := Heap(map[], Empty().order, two, 2 * size, 2, 2, 0);
    states := [Empty(), h1, h2];
    NoClass(size);
    assert h1.large[1 + n := one] == two;
    assert Fresh(Empty(), 1, n);
    assert forall f :: 1 + n <= f < 1 + n + n ==> !Taken(h1, f);
    assert Step(Empty(), ops[0]) == h1 && Step(h1, ops[1]) == h2;
    assert 1 in two && 1 + n in two;
  }

  lemma NoClass(size: nat)
    requires !Moderate(size)
    ensures AskedFor(size) == size && ClassFor(size, 0) == None
  {
  }

  /** A request of 2^44 bytes and the largest request there is get two frames each. */
  lemma HugeRequestsGetTwoFrames()
    ensures !Moderate(0x1000_0000_0000) && LargeFrames(0x1000_0000_0000) == 2
    ensures !Moderate(WORD64 - 1) && LargeFrames(WORD64 - 1) == 2
  {
    LargeFramesCut(WORD64 - 1);
    LargeFramesCut(0x1000_0000_0000);
  }
}
