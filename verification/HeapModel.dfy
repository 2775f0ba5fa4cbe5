/** The slab heap as a value: frames cut into objects of one size, free lists, and large blocks
    of whole frames. Addresses are numbers; frame `f` begins at 4096 * f. */
module HeapModel {
  import opened Arithmetic
  import opened Sequences
  import opened Options

  const PAGE: nat := 4096
  const OBJECT_OFFSET: nat := 64
  const HEADER: nat := 40
  const GUARD: nat := 8
  const CLASSES: nat := 8
  const TRAILER: nat := 24

  // ---- class arithmetic -----------------------------------------------------------------------

  function ClassSize(c: nat): (s: nat)
    ensures 16 <= s <= 2048 && s % 8 == 0
  {
    if c == 0 then 16 else if c == 1 then 32 else if c == 2 then 64 else if c == 3 then 128
    else if c == 4 then 256 else if c == 5 then 512 else if c == 6 then 1024 else 2048
  }

  /** The smallest class that holds `size` bytes, at or after class `c`. */
  function ClassFor(size: nat, c: nat): (r: Option<nat>)
    ensures r.Some? ==> c <= r.value < CLASSES && size <= ClassSize(r.value)
    ensures forall k :: c <= k < CLASSES && size <= ClassSize(k) ==> r.Some? && r.value <= k
    decreases CLASSES - c
  {
    if c >= CLASSES then None else if size <= ClassSize(c) then Some(c) else ClassFor(size, c + 1)
  }

  /** An object and the guard band behind it. */
  function Stride(c: nat): (s: nat)
    ensures s == ClassSize(c) + GUARD && s % 8 == 0
  {
    (ClassSize(c) + GUARD + 7) / 8 * 8
  }

  function Capacity(c: nat): (n: nat) {
    (PAGE - OBJECT_OFFSET - GUARD) / Stride(c)
  }

  /** Where object `i` lies in its frame. */
  function Offset(c: nat, i: nat): (o: nat) {
    OBJECT_OFFSET + i * Stride(c)
  }

  function ObjectAt(f: nat, c: nat, i: nat): nat {
    4096 * f + Offset(c, i)
  }

  /** Objects of a frame are apart, guard band and all. */
  lemma OffsetsApart(c: nat, i: nat, j: nat)
    requires i < j
    ensures Offset(c, i) + Stride(c) <= Offset(c, j)
  {
    var s := Stride(c);
    assert j * s == i * s + (j - i) * s;
    MulGrows(s, j - i);
  }

  /** Every object with both its guard bands lies inside the frame, behind the header, and is
      aligned; and every class has room for one. */
  lemma ObjectsFit(c: nat, i: nat)
    requires i < Capacity(c)
    ensures HEADER <= Offset(c, i) - GUARD
    ensures Offset(c, i) + ClassSize(c) + GUARD <= PAGE
    ensures Offset(c, i) % 8 == 0
  {
    var s, n := Stride(c), Capacity(c);
    assert 4024 == s * n + 4024 % s;
    assert n * s == (i + 1) * s + (n - (i + 1)) * s;
    assert (n - (i + 1)) * s >= 0;
    assert i * s % 8 == 0 by {
      var k := s / 8;
      assert s == 8 * k;
      assert i * s == 8 * (i * k);
    }
  }

  lemma EveryClassHasRoom(c: nat)
    ensures Capacity(c) >= 1
  {
  }

  // ---- large blocks -----------------------------------------------------------------------------

  const WORD32: nat := 0x1_0000_0000
  const WORD64: nat := 0x1_0000_0000_0000_0000

  /** The frames asked for: the sums wrap at 64 bits and the count is cut to 32. */
  function LargeFrames(size: nat): (n: nat)
    ensures n < WORD32
  {
    ((size + TRAILER + PAGE) % WORD64 + PAGE - 1) % WORD64 / PAGE % WORD32
  }

  /** The frame count of a request of this size fits 32 bits. */
  predicate Moderate(size: nat) {
    size + 8215 < 0x1000_0000_0000
  }

  lemma LargeFramesCut(size: nat)
    ensures LargeFrames(size) == (size + 8215) / 4096 % WORD32
  {
    var x := size + 8215;
    WrappedTwice(size + 4120, 4095);
    PageOfWord(x);
    LowOfPage(x / 4096);
  }

  lemma WrappedTwice(a: nat, b: nat)
    ensures (a % WORD64 + b) % WORD64 == (a + b) % WORD64
  {
    var k := a / WORD64;
    assert a + b == (a % WORD64 + b) + WORD64 * k;
  }

  /** A large object, behind its trailer, lies inside the frames granted for it if and only if
      their number fitted 32 bits. */
  lemma LargeFitsExactly(size: nat)
    ensures TRAILER + size <= 4096 * LargeFrames(size) <==> Moderate(size)
    ensures !Moderate(size) ==> 4096 * LargeFrames(size) < size
  {
    LargeFramesCut(size);
    hide LargeFrames;
    var n := (size + 8215) / 4096;
    if !Moderate(size) {
      assert n >= WORD32;
      assert n % WORD32 <= n - WORD32 by {
        assert n == WORD32 * (n / WORD32) + n % WORD32;
      }
    }
  }

  // ---- the state --------------------------------------------------------------------------------

  /** A frame of objects of class `cls`; `free` is the free list. */
  datatype Slab = Slab(cls: nat, inUse: nat, free: seq<nat>)

  /** A block of whole frames, and how many bytes were asked for. */
  datatype Large = Large(frames: nat, size: nat)

  /** `order[c]` are the slabs of class `c`, newest first; `large` blocks are known by their
      first frame. */
  datatype Heap = Heap(
    slabs: map<nat, Slab>, order: seq<seq<nat>>, large: map<nat, Large>,
    bytes: nat, live: nat, total: nat, freed: nat)

  predicate IsSlot(f: nat, c: nat, p: nat) {
    exists i :: 0 <= i < Capacity(c) && p == ObjectAt(f, c, i)
  }

  /** A slab's free list is a list of different objects of the slab, and the rest are in use. */
  ghost predicate SlabGood(f: nat, s: Slab) {
    && s.cls < CLASSES && f > 0
    && Distinct(s.free) && (forall p :: p in s.free ==> IsSlot(f, s.cls, p))
    && s.inUse + |s.free| == Capacity(s.cls)
  }

  /** Frame `f` belongs to the heap. */
  ghost predicate Taken(h: Heap, f: nat) {
    f in h.slabs || exists b :: b in h.large && b <= f < b + h.large[b].frames
  }

  ghost predicate Fresh(h: Heap, b: nat, n: nat) {
    b > 0 && forall f :: b <= f < b + n ==> !Taken(h, f)
  }

  ghost predicate LargeGood(b: nat, l: Large) {
    b > 0 && l.frames == LargeFrames(l.size) >= 1
  }

  /** No frame has two uses. */
  ghost predicate Apart(h: Heap) {
    && (forall b, f :: b in h.large && f in h.slabs ==> f < b || b + h.large[b].frames <= f)
    && (forall a, b :: a in h.large && b in h.large && a != b ==>
          a + h.large[a].frames <= b || b + h.large[b].frames <= a)
  }

  ghost predicate Ordered(h: Heap) {
    && |h.order| == CLASSES
    && (forall c, i :: 0 <= c < CLASSES && 0 <= i < |h.order[c]| ==> h.order[c][i] in h.slabs && h.slabs[h.order[c][i]].cls == c)
    && (forall c :: 0 <= c < CLASSES ==> Distinct(h.order[c]))
    && (forall f :: f in h.slabs && h.slabs[f].cls < CLASSES ==> f in h.order[h.slabs[f].cls])
  }

  ghost predicate Good(h: Heap) {
    && Ordered(h) && Apart(h)
    && (forall f :: f in h.slabs ==> SlabGood(f, h.slabs[f]))
    && (forall b :: b in h.large ==> LargeGood(b, h.large[b]))
  }

  // ---- live objects -----------------------------------------------------------------------------

  /** An object of a slab that has been handed out. */
  ghost predicate LiveSmall(h: Heap, p: nat, size: nat) {
    exists f: nat, i: nat :: LiveAt(h, p, size, f, i)
  }

  ghost predicate LiveAt(h: Heap, p: nat, size: nat, f: nat, i: nat) {
    && f in h.slabs && i < Capacity(h.slabs[f].cls)
    && p == ObjectAt(f, h.slabs[f].cls, i) && size == ClassSize(h.slabs[f].cls) && p !in h.slabs[f].free
  }

  ghost predicate LiveLarge(h: Heap, p: nat, size: nat) {
    exists b :: b in h.large && p == 4096 * b + TRAILER && size == h.large[b].size
  }

  ghost predicate Live(h: Heap, p: nat, size: nat) {
    LiveSmall(h, p, size) || LiveLarge(h, p, size)
  }

  lemma SmallInFrame(h: Heap, p: nat, size: nat, f: nat, i: nat)
    requires LiveAt(h, p, size, f, i)
    ensures 4096 * f + HEADER <= p - GUARD && p + size + GUARD <= 4096 * (f + 1) && p / 4096 == f
  {
    ObjectsFit(h.slabs[f].cls, i);
  }

  /** Live objects of moderate size are pairwise disjoint, and no guard band lies in another
      object. */
  lemma LiveObjectsAreDisjoint(h: Heap, p: nat, m: nat, q: nat, n: nat)
    requires Good(h) && Live(h, p, m) && Live(h, q, n) && (p, m) != (q, n)
    requires Moderate(m) && Moderate(n)
    ensures p + m <= q || q + n <= p
    ensures LiveSmall(h, p, m) && LiveSmall(h, q, n) ==> p + m + GUARD <= q || q + n + GUARD <= p
  {
    if LiveSmall(h, p, m) && LiveSmall(h, q, n) {
      SmallsAreDisjoint(h, p, m, q, n);
    } else if LiveSmall(h, p, m) && LiveLarge(h, q, n) {
      SmallMeetsLarge(h, p, m, q, n);
    } else if LiveLarge(h, p, m) && LiveSmall(h, q, n) {
      SmallMeetsLarge(h, q, n, p, m);
    } else {
      LargesAreDisjoint(h, p, m, q, n);
    }
    NotBoth(h, p, m, m);
    NotBoth(h, q, n, n);
  }

  lemma SmallsAreDisjoint(h: Heap, p: nat, m: nat, q: nat, n: nat)
    requires Good(h) && LiveSmall(h, p, m) && LiveSmall(h, q, n) && (p, m) != (q, n)
    ensures p + m + GUARD <= q || q + n + GUARD <= p
  {
    var f: nat, i: nat :| LiveAt(h, p, m, f, i);
    var g: nat, j: nat :| LiveAt(h, q, n, g, j);
    hide Offset, Capacity, Stride, Good, ClassSize;
    SmallInFrame(h, p, m, f, i);
    SmallInFrame(h, q, n, g, j);
    if f == g {
      if i < j {
        OffsetsApart(h.slabs[f].cls, i, j);
      } else if j < i {
        OffsetsApart(h.slabs[f].cls, j, i);
      }
    }
  }

  lemma SmallMeetsLarge(h: Heap, p: nat, m: nat, q: nat, n: nat)
    requires Good(h) && LiveSmall(h, p, m) && LiveLarge(h, q, n) && Moderate(n)
    ensures p + m <= q || q + n <= p
  {
    var f: nat, i: nat :| LiveAt(h, p, m, f, i);
    var b :| b in h.large && q == 4096 * b + TRAILER && n == h.large[b].size;
    assert LargeGood(b, h.large[b]);
    LargeFitsExactly(n);
    hide Offset, Capacity, Stride, LargeFrames;
    SmallInFrame(h, p, m, f, i);
  }

  lemma LargesAreDisjoint(h: Heap, p: nat, m: nat, q: nat, n: nat)
    requires Good(h) && LiveLarge(h, p, m) && LiveLarge(h, q, n) && (p, m) != (q, n)
    requires Moderate(m) && Moderate(n)
    ensures p + m <= q || q + n <= p
  {
    var a :| a in h.large && p == 4096 * a + TRAILER && m == h.large[a].size;
    var b :| b in h.large && q == 4096 * b + TRAILER && n == h.large[b].size;
    assert LargeGood(a, h.large[a]) && LargeGood(b, h.large[b]);
    LargeFitsExactly(m);
    LargeFitsExactly(n);
    hide LargeFrames;
  }

  /** An address is not a slab object and a large block at once. */
  lemma NotBoth(h: Heap, p: nat, m: nat, n: nat)
    requires Good(h)
    ensures !(LiveSmall(h, p, m) && LiveLarge(h, p, n))
  {
    if LiveSmall(h, p, m) && LiveLarge(h, p, n) {
      var f: nat, i: nat :| LiveAt(h, p, m, f, i);
      var b :| b in h.large && p == 4096 * b + TRAILER && n == h.large[b].size;
      assert LargeGood(b, h.large[b]);
      hide Offset, Capacity, Stride, LargeFrames;
      SmallInFrame(h, p, m, f, i);
    }
  }

  /** Nor two objects of different sizes. */
  lemma OneSize(h: Heap, p: nat, m: nat, n: nat)
    requires Good(h) && Live(h, p, m) && Live(h, p, n)
    ensures m == n
  {
    NotBoth(h, p, m, n);
    NotBoth(h, p, n, m);
    if m != n && LiveSmall(h, p, m) && LiveSmall(h, p, n) {
      SmallsAreDisjoint(h, p, m, p, n);
    }
  }

  /** Byte `a` of a live object lies in memory that was granted for it. */
  ghost predicate Owned(h: Heap, p: nat, m: nat, a: nat) {
    && Live(h, p, m) && p <= a < p + m
    && (p / 4096 in h.large ==> a < 4096 * (p / 4096 + h.large[p / 4096].frames))
  }

  /** All bytes of a live object do if and only if its size is moderate. */
  lemma OwnedExactly(h: Heap, p: nat, m: nat)
    requires Good(h) && Live(h, p, m)
    ensures (forall a :: p <= a < p + m ==> Owned(h, p, m, a)) <==> Moderate(m)
  {
    if LiveSmall(h, p, m) {
      var f: nat, i: nat :| LiveAt(h, p, m, f, i);
      hide Offset, Capacity, Stride, LargeFrames;
      SmallInFrame(h, p, m, f, i);
    } else {
      var b :| b in h.large && p == 4096 * b + TRAILER && m == h.large[b].size;
      assert LargeGood(b, h.large[b]);
      LargeFitsExactly(m);
      hide LargeFrames;
      assert m > 0 && Owned(h, p, m, p + m - 1) ==> Moderate(m);
    }
  }

  // ---- the operations -----------------------------------------------------------------------------

  function Objects(f: nat, c: nat, i: nat): (s: seq<nat>)
    requires i <= Capacity(c)
    ensures |s| == Capacity(c) - i && forall k :: 0 <= k < |s| ==> s[k] == ObjectAt(f, c, i + k)
    decreases Capacity(c) - i
  {
    if i == Capacity(c) then [] else [ObjectAt(f, c, i)] + Objects(f, c, i + 1)
  }

  /** A new slab: every object free, lowest address first. */
  function WithSlab(h: Heap, c: nat, f: nat): Heap
    requires c < |h.order|
  {
    h.(slabs := h.slabs[f := Slab(c, 0, Objects(f, c, 0))], order := h.order[c := [f] + h.order[c]])
  }

  /** The newest slab of a class has a free object. */
  predicate HeadHasRoom(h: Heap, c: nat)
    requires c < |h.order|
  {
    h.order[c] != [] && h.order[c][0] in h.slabs && h.slabs[h.order[c][0]].free != []
  }

  /** Takes the first free object of slab `f`. */
  function Take(h: Heap, f: nat, size: nat): (Heap, nat)
    requires f in h.slabs && h.slabs[f].free != []
  {
    var s := h.slabs[f];
    (h.(slabs := h.slabs[f := Slab(s.cls, s.inUse + 1, s.free[1..])],
        bytes := h.bytes + size, live := h.live + 1, total := h.total + 1), s.free[0])
  }

  datatype Allocated = Allocated(h: Heap, ptr: Option<nat>)

  /** `kmalloc` of a size that has a class; `frame` is what the frame allocator would give. */
  function MallocSmall(h: Heap, c: nat, size: nat, frame: Option<nat>): Allocated
    requires c < |h.order|
  {
    if HeadHasRoom(h, c) then
      var (g, p) := Take(h, h.order[c][0], size);
      Allocated(g, Some(p))
    else match frame
      case None => Allocated(h, None)
      case Some(f) =>
        var g := WithSlab(h, c, f);
        EveryClassHasRoom(c);
        var (k, p) := Take(g, f, size);
        Allocated(k, Some(p))
  }

  /** The frame allocator never gives no frames. */
  function FramesGiven(n: nat, base: Option<nat>): Option<nat> {
    if n == 0 then None else base
  }

  function MallocLarge(h: Heap, size: nat, base: Option<nat>): Allocated {
    match FramesGiven(LargeFrames(size), base)
    case None => Allocated(h, None)
    case Some(b) =>
      Allocated(h.(large := h.large[b := Large(LargeFrames(size), size)],
                   bytes := h.bytes + size, live := h.live + 1, total := h.total + 1), Some(4096 * b + TRAILER))
  }

  function AskedFor(size: nat): nat {
    if size == 0 then 1 else size
  }

  function Malloc(h: Heap, size: nat, frame: Option<nat>): Allocated
    requires |h.order| == CLASSES
  {
    match ClassFor(AskedFor(size), 0)
    case Some(c) => MallocSmall(h, c, AskedFor(size), frame)
    case None => MallocLarge(h, AskedFor(size), frame)
  }

  /** `kfree`: a slab object goes to the front of its slab's free list, a large block back to
      the frame allocator. */
  function Free(h: Heap, p: nat): Heap {
    var f := p / 4096;
    if f in h.slabs then
      var s := h.slabs[f];
      h.(slabs := h.slabs[f := Slab(s.cls, Dec(s.inUse), [p] + s.free)], live := Dec(h.live), freed := h.freed + 1)
    else if f in h.large then h.(large := h.large - {f}, live := Dec(h.live), freed := h.freed + 1)
    else h
  }

  function Empty(): Heap {
    Heap(map[], [[], [], [], [], [], [], [], []], map[], 0, 0, 0, 0)
  }
}
