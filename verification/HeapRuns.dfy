/** Runs of the heap: every allocation adds exactly one live object that overlaps no other,
    every free removes exactly the one named. */
module HeapRuns {
  import opened Arithmetic
  import opened Sequences
  import opened Options
  import opened HeapModel

  /** Exactly one object more is live, and it was not before. */
  ghost predicate Adds(h: Heap, g: Heap, p: nat, m: nat) {
    !Live(h, p, m) && forall q: nat, n: nat :: Live(g, q, n) <==> Live(h, q, n) || (q == p && n == m)
  }

  /** Exactly one object less is live. */
  ghost predicate Removes(h: Heap, g: Heap, p: nat, m: nat) {
    forall q: nat, n: nat :: Live(g, q, n) <==> Live(h, q, n) && (q != p || n != m)
  }

  // ---- allocation -------------------------------------------------------------------------------

  lemma ObjectsAreFree(f: nat, c: nat)
    requires f > 0 && c < CLASSES
    ensures SlabGood(f, Slab(c, 0, Objects(f, c, 0)))
  {
    var s := Objects(f, c, 0);
    forall i, j | 0 <= i < j < |s| ensures s[i] != s[j] {
      OffsetsApart(c, i, j);
    }
    hide Objects, Capacity;
  }

  lemma WithSlabGood(h: Heap, c: nat, f: nat)
    requires Good(h) && c < CLASSES && Fresh(h, f, 1)
    ensures var g := WithSlab(h, c, f); Good(g) && HeadHasRoom(g, c) && g.order[c][0] == f
  {
    ObjectsAreFree(f, c);
    EveryClassHasRoom(c);
    assert !Taken(h, f);
    WithSlabOrdered(h, c, f);
    hide Objects, Capacity, SlabGood, LargeGood, Ordered;
    forall b | b in h.large ensures f < b || b + h.large[b].frames <= f {
    }
  }

  lemma WithSlabOrdered(h: Heap, c: nat, f: nat)
    requires Ordered(h) && c < CLASSES && f !in h.slabs
    ensures Ordered(WithSlab(h, c, f))
  {
    var g := WithSlab(h, c, f);
    hide Objects;
    forall i, j | 0 <= i < j < |g.order[c]| ensures g.order[c][i] != g.order[c][j] {
      if i == 0 {
        assert h.order[c][j - 1] in h.slabs;
      } else {
        assert g.order[c][i] == h.order[c][i - 1] && g.order[c][j] == h.order[c][j - 1];
      }
    }
  }

  /** The new slab's objects are all free: nothing becomes live. */
  lemma WithSlabLive(h: Heap, c: nat, f: nat, q: nat, n: nat)
    requires Good(h) && c < CLASSES && Fresh(h, f, 1)
    ensures Live(WithSlab(h, c, f), q, n) <==> Live(h, q, n)
  {
    var g := WithSlab(h, c, f);
    assert !Taken(h, f);
    forall i | 0 <= i < Capacity(c) ensures ObjectAt(f, c, i) in Objects(f, c, 0) {
      assert Objects(f, c, 0)[i] == ObjectAt(f, c, i);
    }
    if LiveSmall(g, q, n) {
      var k: nat, i: nat :| LiveAt(g, q, n, k, i);
      assert LiveAt(h, q, n, k, i);
    }
    if LiveSmall(h, q, n) {
      var k: nat, i: nat :| LiveAt(h, q, n, k, i);
      assert LiveAt(g, q, n, k, i);
    }
  }

  lemma TakeGood(h: Heap, f: nat, size: nat)
    requires Good(h) && f in h.slabs && h.slabs[f].free != []
    ensures var (g, p) := Take(h, f, size);
      Good(g) && Adds(h, g, p, ClassSize(h.slabs[f].cls))
  {
    var s := h.slabs[f];
    var (g, p) := Take(h, f, size);
    assert SlabGood(f, s);
    assert p in s.free;
    forall a | a in s.free[1..] ensures a in s.free {
    }
    TakenIsNotLive(h, f);
    assert SlabGood(f, g.slabs[f]);
    hide SlabGood, Capacity, ObjectAt;
    forall q: nat, n: nat ensures Live(g, q, n) <==> Live(h, q, n) || (q == p && n == ClassSize(s.cls)) {
      TakeLive(h, f, size, q, n);
    }
  }

  lemma TakenIsNotLive(h: Heap, f: nat)
    requires Good(h) && f in h.slabs && h.slabs[f].free != []
    ensures !Live(h, h.slabs[f].free[0], ClassSize(h.slabs[f].cls))
  {
    var s := h.slabs[f];
    var p := s.free[0];
    assert SlabGood(f, s) && p in s.free;
    var i: nat :| i < Capacity(s.cls) && p == ObjectAt(f, s.cls, i);
    ObjectsFit(s.cls, i);
    if LiveSmall(h, p, ClassSize(s.cls)) {
      var g: nat, j: nat :| LiveAt(h, p, ClassSize(s.cls), g, j);
      ObjectsFit(h.slabs[g].cls, j);
    }
  }

  lemma TakeLive(h: Heap, f: nat, size: nat, q: nat, n: nat)
    requires Good(h) && f in h.slabs && h.slabs[f].free != []
    ensures var (g, p) := Take(h, f, size);
      Live(g, q, n) <==> Live(h, q, n) || (q == p && n == ClassSize(h.slabs[f].cls))
  {
    var s := h.slabs[f];
    var (g, p) := Take(h, f, size);
    assert SlabGood(f, s) && p in s.free;
    assert forall a :: a in s.free <==> a == p || a in s.free[1..];
    if LiveSmall(g, q, n) && q != p {
      var k: nat, i: nat :| LiveAt(g, q, n, k, i);
      assert LiveAt(h, q, n, k, i);
    }
    if LiveSmall(g, q, n) && q == p {
      var k: nat, i: nat :| LiveAt(g, q, n, k, i);
      var j: nat :| j < Capacity(s.cls) && p == ObjectAt(f, s.cls, j);
      ObjectsFit(s.cls, j);
      ObjectsFit(g.slabs[k].cls, i);
      assert k == f;
    }
    if LiveSmall(h, q, n) {
      var k: nat, i: nat :| LiveAt(h, q, n, k, i);
      assert LiveAt(g, q, n, k, i);
    }
    if (q, n) == (p, ClassSize(s.cls)) {
      var j: nat :| j < Capacity(s.cls) && p == ObjectAt(f, s.cls, j);
      assert p !in s.free[1..];
      assert LiveAt(g, q, n, f, j);
    }
  }

  /** A small allocation adds one live object of its class, which was not live. It asks for a
      frame exactly when the newest slab of the class is full; so after that test the newest
      slab always has a free object. */
  lemma MallocSmallAdds(h: Heap, c: nat, size: nat, frame: Option<nat>)
    requires Good(h) && c < CLASSES && (frame.Some? ==> Fresh(h, frame.value, 1))
    ensures var a := MallocSmall(h, c, size, frame);
      && Good(a.h)
      && (a.ptr.None? <==> !HeadHasRoom(h, c) && frame.None?)
      && (a.ptr.None? ==> a.h == h)
      && (a.ptr.Some? ==> Adds(h, a.h, a.ptr.value, ClassSize(c)))
  {
    assert |h.order| == CLASSES;
    hide Good, Live, Fresh, WithSlab, Take, SlabGood, Capacity, Objects, Adds;
    if HeadHasRoom(h, c) {
      HeadClass(h, c);
      TakeGood(h, h.order[c][0], size);
    } else if frame.Some? {
      var f := frame.value;
      WithSlabGood(h, c, f);
      var g := WithSlab(h, c, f);
      HeadClass(g, c);
      TakeGood(g, f, size);
      forall q: nat, n: nat ensures Live(g, q, n) <==> Live(h, q, n) {
        WithSlabLive(h, c, f, q, n);
      }
      SameThenAdds(h, g, MallocSmall(h, c, size, frame).h, Take(g, f, size).1, ClassSize(c));
    }
  }

  lemma SameThenAdds(h: Heap, g: Heap, k: Heap, p: nat, m: nat)
    requires forall q: nat, n: nat :: Live(g, q, n) <==> Live(h, q, n)
    requires Adds(g, k, p, m)
    ensures Adds(h, k, p, m)
  {
    hide Live;
  }

  lemma HeadClass(h: Heap, c: nat)
    requires Good(h) && c < CLASSES && HeadHasRoom(h, c)
    ensures h.slabs[h.order[c][0]].cls == c
  {
  }

  /** A large allocation adds one live object. It fails only without frames, and for the sizes
      whose frame count is cut to nothing. */
  lemma MallocLargeAdds(h: Heap, size: nat, base: Option<nat>)
    requires Good(h) && (base.Some? ==> Fresh(h, base.value, LargeFrames(size)))
    ensures var a := MallocLarge(h, size, base);
      && Good(a.h) && (a.ptr.None? <==> base.None? || LargeFrames(size) == 0) && (a.ptr.None? ==> a.h == h)
      && (a.ptr.Some? ==> Adds(h, a.h, a.ptr.value, size))
  {
    if base.Some? && LargeFrames(size) >= 1 {
      var b := base.value;
      var g := MallocLarge(h, size, base).h;
      assert !Taken(h, b);
      hide LargeFrames, SlabGood;
      NewLargeApart(h, b, LargeFrames(size), size);
      assert Good(g);
      NewLargeIsNotLive(h, b, size);
      hide Good, LiveSmall, LiveLarge;
      forall q: nat, n: nat ensures Live(g, q, n) <==> Live(h, q, n) || (q == 4096 * b + TRAILER && n == size) {
        SameSmall(h, g, q, n);
        LargeAdded(h, b, LargeFrames(size), size, g, q, n);
      }
    }
  }

  lemma LargeAdded(h: Heap, b: nat, frames: nat, size: nat, g: Heap, q: nat, n: nat)
    requires b !in h.large && g.large == h.large[b := Large(frames, size)]
    ensures LiveLarge(g, q, n) <==> LiveLarge(h, q, n) || (q == 4096 * b + TRAILER && n == size)
  {
    if LiveLarge(h, q, n) {
      var k: nat :| k in h.large && q == 4096 * k + TRAILER && n == h.large[k].size;
      assert k in g.large && n == g.large[k].size;
    }
    if q == 4096 * b + TRAILER && n == size {
      assert b in g.large && n == g.large[b].size;
    }
  }

  lemma LargeRemoved(h: Heap, b: nat, g: Heap, q: nat, n: nat)
    requires b in h.large && g.large == h.large - {b}
    ensures LiveLarge(g, q, n) <==> LiveLarge(h, q, n) && (q != 4096 * b + TRAILER || n != h.large[b].size)
  {
    if LiveLarge(h, q, n) && (q != 4096 * b + TRAILER || n != h.large[b].size) {
      var k: nat :| k in h.large && q == 4096 * k + TRAILER && n == h.large[k].size;
      assert k in g.large && n == g.large[k].size;
    }
  }

  lemma NewLargeApart(h: Heap, b: nat, n: nat, size: nat)
    requires Good(h) && n >= 1 && Fresh(h, b, n)
    ensures Apart(h.(large := h.large[b := Large(n, size)])) && b !in h.large
  {
    hide SlabGood;
    forall f | f in h.slabs ensures f < b || b + n <= f {
      assert Taken(h, f);
    }
    forall a | a in h.large ensures a + h.large[a].frames <= b || b + n <= a {
      assert LargeGood(a, h.large[a]);
      forall x | a <= x < a + h.large[a].frames ensures Taken(h, x) {
      }
      assert Taken(h, a) && !Taken(h, b);
    }
  }

  lemma SameSmall(h: Heap, g: Heap, q: nat, n: nat)
    requires g.slabs == h.slabs
    ensures LiveSmall(g, q, n) <==> LiveSmall(h, q, n)
  {
    if LiveSmall(g, q, n) {
      var k: nat, i: nat :| LiveAt(g, q, n, k, i);
      assert LiveAt(h, q, n, k, i);
    }
    if LiveSmall(h, q, n) {
      var k: nat, i: nat :| LiveAt(h, q, n, k, i);
      assert LiveAt(g, q, n, k, i);
    }
  }

  lemma NewLargeIsNotLive(h: Heap, b: nat, size: nat)
    requires Good(h) && b !in h.slabs && b !in h.large
    ensures !Live(h, 4096 * b + TRAILER, size)
  {
    if LiveSmall(h, 4096 * b + TRAILER, size) {
      var k: nat, i: nat :| LiveAt(h, 4096 * b + TRAILER, size, k, i);
      SmallInFrame(h, 4096 * b + TRAILER, size, k, i);
    }
  }

  // ---- freeing ------------------------------------------------------------------------------------

  lemma FreeSmall(h: Heap, p: nat, m: nat)
    requires Good(h) && LiveSmall(h, p, m)
    ensures p / 4096 in h.slabs && Good(Free(h, p))
    ensures Removes(h, Free(h, p), p, m)
  {
    var f: nat, i: nat :| LiveAt(h, p, m, f, i);
    SmallInFrame(h, p, m, f, i);
    var s, g := h.slabs[f], Free(h, p);
    assert SlabGood(f, s);
    InUseCounts(f, s, i);
    assert SlabGood(f, g.slabs[f]);
    hide SlabGood, Capacity;
    assert Good(g);
    forall q: nat, n: nat ensures Live(g, q, n) <==> Live(h, q, n) && (q != p || n != m) {
      FreeLive(h, p, m, f, i, q, n);
    }
  }

  /** An object that is not on the free list is counted in use. */
  lemma InUseCounts(f: nat, s: Slab, i: nat)
    requires SlabGood(f, s) && i < Capacity(s.cls) && ObjectAt(f, s.cls, i) !in s.free
    ensures s.inUse >= 1
  {
    var c := s.cls;
    var free := IndexesOf(f, s, |s.free|);
    assert free <= UpTo(Capacity(c)) - {i};
    SubsetSize(free, UpTo(Capacity(c)) - {i});
  }

  function UpTo(n: nat): (r: set<nat>)
    ensures |r| == n && forall k :: k in r <==> 0 <= k < n
  {
    if n == 0 then {} else UpTo(n - 1) + {n - 1}
  }

  lemma {:induction false} SubsetSize(a: set<nat>, b: set<nat>)
    requires a <= b
    ensures |a| <= |b|
  {
    if a != {} {
      var x :| x in a;
      SubsetSize(a - {x}, b - {x});
    }
  }

  /** The object numbers of the first `n` entries of the free list. */
  lemma {:induction false} IndexesOf(f: nat, s: Slab, n: nat) returns (r: set<nat>)
    requires SlabGood(f, s) && n <= |s.free|
    ensures |r| == n && forall k :: k in r ==> k < Capacity(s.cls) && ObjectAt(f, s.cls, k) in s.free[..n]
  {
    r := {};
    if n > 0 {
      var before := IndexesOf(f, s, n - 1);
      var p := s.free[n - 1];
      assert p in s.free;
      var k: nat :| k < Capacity(s.cls) && p == ObjectAt(f, s.cls, k);
      hide Capacity, ObjectAt;
      assert p !in s.free[..n - 1];
      assert s.free[..n] == s.free[..n - 1] + [p];
      r := before + {k};
    }
  }

  lemma FreeLive(h: Heap, p: nat, m: nat, f: nat, i: nat, q: nat, n: nat)
    requires Good(h) && LiveAt(h, p, m, f, i) && p / 4096 == f
    ensures Live(Free(h, p), q, n) <==> Live(h, q, n) && (q != p || n != m)
  {
    var g := Free(h, p);
    hide Capacity, ObjectAt, SlabGood;
    if LiveSmall(g, q, n) {
      var k: nat, j: nat :| LiveAt(g, q, n, k, j);
      assert LiveAt(h, q, n, k, j);
      if q == p {
        SmallInFrame(g, q, n, k, j);
      }
    }
    if LiveSmall(h, q, n) && (q, n) != (p, m) {
      var k: nat, j: nat :| LiveAt(h, q, n, k, j);
      if q == p {
        SmallInFrame(h, q, n, k, j);
      }
      assert LiveAt(g, q, n, k, j);
    }
    if LiveLarge(h, q, n) {
      NotBoth(h, p, m, n);
    }
  }

  lemma FreeLarge(h: Heap, p: nat, m: nat)
    requires Good(h) && LiveLarge(h, p, m)
    ensures p / 4096 !in h.slabs && p / 4096 in h.large && Good(Free(h, p))
    ensures Removes(h, Free(h, p), p, m)
  {
    var b :| b in h.large && p == 4096 * b + TRAILER && m == h.large[b].size;
    assert p / 4096 == b && LargeGood(b, h.large[b]);
    var g := Free(h, p);
    hide SlabGood;
    assert Good(g);
    NotBoth(h, p, m, m);
    hide Good, LiveSmall, LiveLarge;
    forall q: nat, n: nat ensures Live(g, q, n) <==> Live(h, q, n) && (q != p || n != m) {
      SameSmall(h, g, q, n);
      LargeRemoved(h, b, g, q, n);
    }
  }

  // ---- every run ------------------------------------------------------------------------------------

  datatype Op = OpMalloc(size: nat, frame: Option<nat>) | OpFree(p: nat)

  /** What the frame allocator may give: frames the heap does not hold; and only live objects
      are freed. */
  ghost predicate Allowed(h: Heap, op: Op) {
    match op
    case OpMalloc(size, frame) =>
      frame.Some? ==> Fresh(h, frame.value, if ClassFor(AskedFor(size), 0).Some? then 1 else LargeFrames(AskedFor(size)))
    case OpFree(p) => exists m: nat :: Live(h, p, m)
  }

  function Step(h: Heap, op: Op): Heap
    requires |h.order| == CLASSES
  {
    match op
    case OpMalloc(size, frame) => Malloc(h, size, frame).h
    case OpFree(p) => Free(h, p)
  }

  lemma StepGood(h: Heap, op: Op)
    requires Good(h) && Allowed(h, op)
    ensures Good(Step(h, op))
  {
    hide MallocSmall, MallocLarge, Free;
    match op
    case OpMalloc(size, frame) =>
      match ClassFor(AskedFor(size), 0) {
        case Some(c) => MallocSmallAdds(h, c, AskedFor(size), frame);
        case None => MallocLargeAdds(h, AskedFor(size), frame);
      }
    case OpFree(p) =>
      var m: nat :| Live(h, p, m);
      if LiveSmall(h, p, m) {
        FreeSmall(h, p, m);
      } else {
        FreeLarge(h, p, m);
      }
  }

  ghost predicate Runs(states: seq<Heap>, ops: seq<Op>) {
    && |states| == |ops| + 1 && states[0] == Empty()
    && forall i :: 0 <= i < |ops| ==>
         |states[i].order| == CLASSES && Allowed(states[i], ops[i]) && states[i + 1] == Step(states[i], ops[i])
  }

  /** In every state of every run the heap is good, so any two live objects of moderate size are
      disjoint. */
  lemma {:induction false} RunsStayGood(states: seq<Heap>, ops: seq<Op>, i: nat)
    requires Runs(states, ops) && i < |states|
    ensures Good(states[i])
  {
    if i > 0 {
      hide Step, Allowed, Good;
      RunsStayGood(states, ops, i - 1);
      StepGood(states[i - 1], ops[i - 1]);
    }
  }

  lemma LiveObjectsStayDisjoint(states: seq<Heap>, ops: seq<Op>, i: nat, p: nat, m: nat, q: nat, n: nat)
    requires Runs(states, ops) && i < |states| && Live(states[i], p, m) && Live(states[i], q, n) && (p, m) != (q, n)
    requires Moderate(m) && Moderate(n)
    ensures p + m <= q || q + n <= p
  {
    hide Runs, Live, Good;
    RunsStayGood(states, ops, i);
    LiveObjectsAreDisjoint(states[i], p, m, q, n);
  }
}
