/** The heap as it runs: the free list of a slab is threaded through its free objects, and
    memory between them belongs to whoever holds a live object. */
module KernelHeaps {
  import opened Arithmetic
  import opened Sequences
  import opened Options
  import opened HeapModel
  import opened HeapRuns

  /** What the trailer in front of a large object says; the size asked for is cut to 32 bits. */
  datatype Trailer = Trailer(frames: nat, requested: nat)

  function TrailerOf(l: Large): Trailer {
    Trailer(l.frames, l.size % WORD32)
  }

  /** Every large block has its trailer. */
  ghost predicate Trailed(trailers: map<nat, Trailer>, h: Heap) {
    trailers.Keys == h.large.Keys && forall b :: b in h.large ==> trailers[b] == TrailerOf(h.large[b])
  }

  /** What a slab page's header says; `freeList` is an address, 0 for none. */
  datatype Header = Header(cls: nat, inUse: nat, freeList: nat)

  // ---- free lists in memory -------------------------------------------------------------------

  /** From `head` the words lead through exactly the objects of `list`. */
  ghost predicate Threaded(words: map<nat, nat>, head: nat, list: seq<nat>)
    decreases |list|
  {
    if list == [] then head == 0
    else head == list[0] && head > 0 && head in words && Threaded(words, words[head], list[1..])
  }

  lemma {:induction false} ThreadKeeps(words: map<nat, nat>, after: map<nat, nat>, head: nat, list: seq<nat>)
    requires Threaded(words, head, list)
    requires forall a :: a in list && a in words ==> a in after && after[a] == words[a]
    ensures Threaded(after, head, list)
    decreases |list|
  {
    if list != [] {
      ThreadKeeps(words, after, words[head], list[1..]);
    }
  }

  lemma ThreadPush(words: map<nat, nat>, head: nat, list: seq<nat>, p: nat)
    requires Threaded(words, head, list) && p > 0 && p !in list
    ensures Threaded(words[p := head], p, [p] + list)
  {
    ThreadKeeps(words, words[p := head], head, list);
    assert ([p] + list)[1..] == list;
  }

  lemma ThreadPop(words: map<nat, nat>, head: nat, list: seq<nat>)
    requires Threaded(words, head, list)
    ensures head == 0 <==> list == []
    ensures list != [] ==> head == list[0] && head in words && Threaded(words, words[head], list[1..])
  {
  }

  /** Slab `f` in memory is slab `s` of the model. */
  ghost predicate Held(words: map<nat, nat>, headers: map<nat, Header>, f: nat, s: Slab) {
    && f in headers && headers[f].cls == s.cls && headers[f].inUse == s.inUse
    && Threaded(words, headers[f].freeList, s.free)
  }

  ghost predicate AllHeld(words: map<nat, nat>, headers: map<nat, Header>, h: Heap) {
    headers.Keys == h.slabs.Keys && forall f :: f in h.slabs ==> Held(words, headers, f, h.slabs[f])
  }

  /** The addresses on a free list lie in their slab's frame, behind its header. */
  lemma ListInFrame(f: nat, s: Slab, p: nat)
    requires SlabGood(f, s) && p in s.free
    ensures p / 4096 == f && p >= 4096 * f + HEADER && p % 8 == 0
  {
    var i: nat :| i < Capacity(s.cls) && p == ObjectAt(f, s.cls, i);
    ObjectsFit(s.cls, i);
    assert p == 8 * (512 * f) + Offset(s.cls, i);
  }

  /** Words outside its frame do not matter to a slab. */
  lemma HeldApart(words: map<nat, nat>, after: map<nat, nat>, headers: map<nat, Header>, more: map<nat, Header>, f: nat, s: Slab)
    requires Held(words, headers, f, s) && SlabGood(f, s) && f in more && more[f] == headers[f]
    requires forall a :: a in words && a / 4096 == f ==> a in after && after[a] == words[a]
    ensures Held(after, more, f, s)
  {
    forall p | p in s.free ensures p / 4096 == f {
      ListInFrame(f, s, p);
    }
    ThreadKeeps(words, after, headers[f].freeList, s.free);
  }

  /** One slab, and words in its frame, change. */
  lemma OneHeld(words: map<nat, nat>, after: map<nat, nat>, headers: map<nat, Header>, more: map<nat, Header>, h: Heap, g: Heap, f: nat)
    requires AllHeld(words, headers, h) && forall k :: k in h.slabs ==> SlabGood(k, h.slabs[k])
    requires f in g.slabs && g.slabs == h.slabs[f := g.slabs[f]] && f in more && more == headers[f := more[f]]
    requires Held(after, more, f, g.slabs[f])
    requires forall a :: a in words && a / 4096 != f ==> a in after && after[a] == words[a]
    ensures AllHeld(after, more, g)
  {
    hide SlabGood, Threaded;
    forall k | k in g.slabs && k != f ensures Held(after, more, k, g.slabs[k]) {
      assert Held(words, headers, k, h.slabs[k]);
      HeldApart(words, after, headers, more, k, h.slabs[k]);
    }
  }

  lemma SlabsGood(h: Heap)
    requires Good(h)
    ensures forall k :: k in h.slabs ==> SlabGood(k, h.slabs[k])
  {
  }

  // ---- guard bands ------------------------------------------------------------------------------

  /** The word a guard band is painted with. */
  const REDZONE: nat := 0xAFAF_AFAF_AFAF_AFAF

  /** Both guard bands of the object at `p` are as painted. */
  predicate Painted(words: map<nat, nat>, p: nat, size: nat)
    requires p >= GUARD
  {
    && p - GUARD in words && words[p - GUARD] == REDZONE
    && p + size in words && words[p + size] == REDZONE
  }

  function Paint(words: map<nat, nat>, p: nat, size: nat): map<nat, nat>
    requires p >= GUARD
  {
    words[p - GUARD := REDZONE][p + size := REDZONE]
  }

  /** The guard bands of the objects of slab `f` from number `i` on. */
  ghost predicate PaintedFrom(words: map<nat, nat>, f: nat, c: nat, i: nat) {
    forall j :: i <= j < Capacity(c) ==> ObjectAt(f, c, j) >= GUARD && Painted(words, ObjectAt(f, c, j), ClassSize(c))
  }

  /** The guard bands of every object, free or not. */
  ghost predicate AllPainted(words: map<nat, nat>, h: Heap) {
    forall f :: f in h.slabs ==> PaintedFrom(words, f, h.slabs[f].cls, 0)
  }

  /** Word `q` holds byte `a`. */
  predicate Covers(q: nat, a: nat) {
    q <= a < q + 8
  }

  /** The guard bands of an object meet no object of the slab. */
  lemma GuardsApart(f: nat, c: nat, i: nat, j: nat)
    requires i < Capacity(c) && j < Capacity(c)
    ensures var p, q := ObjectAt(f, c, i), ObjectAt(f, c, j);
      && p >= GUARD && p / 4096 == f && (p - GUARD) / 4096 == f && (p + ClassSize(c)) / 4096 == f
      && (q + ClassSize(c) <= p - GUARD || p <= q)
      && (q + ClassSize(c) <= p + ClassSize(c) || p + ClassSize(c) + GUARD <= q)
  {
    ObjectsFit(c, i);
    if i < j {
      OffsetsApart(c, i, j);
    } else if j < i {
      OffsetsApart(c, j, i);
    }
  }

  /** Words outside its frame do not matter to a slab's guard bands. */
  lemma PaintedApart(words: map<nat, nat>, after: map<nat, nat>, f: nat, c: nat, i: nat)
    requires PaintedFrom(words, f, c, i)
    requires forall a :: a in words && a / 4096 == f ==> a in after && after[a] == words[a]
    ensures PaintedFrom(after, f, c, i)
  {
    forall j | i <= j < Capacity(c)
      ensures ObjectAt(f, c, j) >= GUARD && Painted(after, ObjectAt(f, c, j), ClassSize(c))
    {
      GuardsApart(f, c, j, j);
    }
  }

  /** A link written into an object leaves every guard band of its slab alone. */
  lemma LinkKeepsPaint(words: map<nat, nat>, f: nat, c: nat, from: nat, i: nat, link: nat)
    requires PaintedFrom(words, f, c, from) && i < Capacity(c)
    ensures PaintedFrom(words[ObjectAt(f, c, i) := link], f, c, from)
  {
    var after := words[ObjectAt(f, c, i) := link];
    forall j | from <= j < Capacity(c)
      ensures ObjectAt(f, c, j) >= GUARD && Painted(after, ObjectAt(f, c, j), ClassSize(c))
    {
      GuardsApart(f, c, j, i);
      hide ObjectAt, Capacity;
    }
  }

  /** Painting spoils no paint. */
  lemma PaintKeepsPaint(words: map<nat, nat>, f: nat, c: nat, from: nat, p: nat, size: nat)
    requires PaintedFrom(words, f, c, from) && p >= GUARD
    ensures PaintedFrom(Paint(words, p, size), f, c, from)
  {
    hide ObjectAt, Capacity;
  }

  /** Painting the guard bands of an object touches no link of its slab. */
  lemma PaintIsApart(f: nat, s: Slab, i: nat, q: nat)
    requires SlabGood(f, s) && i < Capacity(s.cls) && q in s.free
    ensures var p := ObjectAt(f, s.cls, i); p >= GUARD && q != p - GUARD && q != p + ClassSize(s.cls)
  {
    var j: nat :| j < Capacity(s.cls) && q == ObjectAt(f, s.cls, j);
    GuardsApart(f, s.cls, i, j);
  }

  /** One slab's guard bands are painted, and no other slab's frame changes. */
  lemma StillPainted(words: map<nat, nat>, after: map<nat, nat>, h: Heap, g: Heap, f: nat)
    requires AllPainted(words, h) && f in g.slabs && PaintedFrom(after, f, g.slabs[f].cls, 0)
    requires forall k :: k in g.slabs && k != f ==> k in h.slabs && g.slabs[k].cls == h.slabs[k].cls
    requires forall a :: a in words && a / 4096 != f ==> a in after && after[a] == words[a]
    ensures AllPainted(after, g)
  {
    hide PaintedFrom;
    forall k | k in g.slabs && k != f ensures PaintedFrom(after, k, g.slabs[k].cls, 0) {
      PaintedApart(words, after, k, g.slabs[k].cls, 0);
    }
  }

  /** A byte written into a live object is in no word of a free list: every link, all eight
      bytes of it, lies elsewhere. */
  lemma WriteIsApart(h: Heap, p: nat, m: nat, a: nat, f: nat, q: nat)
    requires Good(h) && Owned(h, p, m, a) && f in h.slabs && q in h.slabs[f].free
    ensures a < q || q + 8 <= a
  {
    var s := h.slabs[f];
    assert SlabGood(f, s);
    var j: nat :| j < Capacity(s.cls) && q == ObjectAt(f, s.cls, j);
    InObjectOrElsewhere(h, p, m, a, f, j);
  }

  /** Nor is it in a guard band. */
  lemma WriteMissesGuards(h: Heap, p: nat, m: nat, a: nat, f: nat, j: nat)
    requires Good(h) && Owned(h, p, m, a) && f in h.slabs && j < Capacity(h.slabs[f].cls)
    ensures var q := ObjectAt(f, h.slabs[f].cls, j);
      && q >= GUARD && !Covers(q - GUARD, a) && !Covers(q + ClassSize(h.slabs[f].cls), a)
  {
    var c := h.slabs[f].cls;
    ObjectsFit(c, j);
    if LiveSmall(h, p, m) {
      var g: nat, i: nat :| LiveAt(h, p, m, g, i);
      hide Offset, Capacity, Good;
      SmallInFrame(h, p, m, g, i);
      if g == f {
        GuardsApart(f, c, j, i);
      }
    } else {
      LargeIsElsewhere(h, p, m, a, f);
    }
  }

  /** The byte is in object `j` itself, or apart from it. */
  lemma InObjectOrElsewhere(h: Heap, p: nat, m: nat, a: nat, f: nat, j: nat)
    requires Good(h) && Owned(h, p, m, a) && f in h.slabs && j < Capacity(h.slabs[f].cls)
    ensures var q := ObjectAt(f, h.slabs[f].cls, j); q in h.slabs[f].free ==> a < q || q + 8 <= a
  {
    var c := h.slabs[f].cls;
    ObjectsFit(c, j);
    if LiveSmall(h, p, m) {
      var g: nat, i: nat :| LiveAt(h, p, m, g, i);
      hide Offset, Capacity, Good;
      SmallInFrame(h, p, m, g, i);
      if g == f && i < j {
        OffsetsApart(c, i, j);
      } else if g == f && j < i {
        OffsetsApart(c, j, i);
      }
    } else {
      LargeIsElsewhere(h, p, m, a, f);
    }
  }

  lemma LargeIsElsewhere(h: Heap, p: nat, m: nat, a: nat, f: nat)
    requires Good(h) && LiveLarge(h, p, m) && Owned(h, p, m, a) && f in h.slabs
    ensures a < 4096 * f || 4096 * (f + 1) <= a
  {
    var b: nat :| b in h.large && p == 4096 * b + TRAILER && m == h.large[b].size;
    assert LargeGood(b, h.large[b]);
  }

  class KernelHeap {
    var words: map<nat, nat>            // the word at each address that has been written
    var headers: map<nat, Header>
    var order: seq<seq<nat>>            // each cache's slabs, newest first
    var trailers: map<nat, Trailer>
    var bytes: nat
    var live: nat
    var total: nat
    var freed: nat
    ghost var h: Heap

    ghost predicate Valid()
      reads this
    {
      && Good(h) && AllHeld(words, headers, h)
      && order == h.order && Trailed(trailers, h)
      && bytes == h.bytes && live == h.live && total == h.total && freed == h.freed
    }

    /** Nobody has written past the end, or before the start, of an object. */
    ghost predicate Guarded()
      reads this
    {
      AllPainted(words, h)
    }

    constructor ()
      ensures Valid() && Guarded() && h == Empty()
    {
      words, headers, trailers := map[], map[], map[];
      order := [[], [], [], [], [], [], [], []];
      bytes, live, total, freed := 0, 0, 0, 0;
      h := Empty();
    }

    /** Threads the free list through a new slab's objects, highest address first, and paints
        their guard bands. */
    method SlabCreate(c: nat, f: nat)
      requires Valid() && c < CLASSES && Fresh(h, f, 1)
      modifies this
      ensures Valid() && h == WithSlab(old(h), c, f)
      ensures old(Guarded()) ==> Guarded()
    {
      hide Good, Capacity, Stride, SlabGood, AllHeld, ObjectAt, PaintedFrom, AllPainted, Threaded, Objects, Fresh, HeadHasRoom;
      OrderIs(h);
      WithSlabGood(h, c, f);
      SlabsGood(h);
      NotThere(h, f);
      ghost var before, was := words, headers;
      var freeList := ThreadObjects(c, f);
      headers := headers[f := Header(c, 0, freeList)];
      order := order[c := [f] + order[c]];
      ghost var g := WithSlab(h, c, f);
      OneHeld(before, words, was, headers, h, g, f);
      if AllPainted(before, h) {
        StillPainted(before, words, h, g, f);
      }
      h := g;
    }

    method ThreadObjects(c: nat, f: nat) returns (freeList: nat)
      requires f > 0
      modifies this`words
      ensures Threaded(words, freeList, Objects(f, c, 0)) && PaintedFrom(words, f, c, 0)
      ensures forall a :: a in old(words) && a / 4096 != f ==> a in words && words[a] == old(words)[a]
    {
      freeList := 0;
      var i: nat := Capacity(c);
      hide Capacity, Stride, ObjectAt, Threaded, PaintedFrom, Painted, Paint;
      assert Objects(f, c, i) == [];
      NoThread(words);
      NothingPainted(words, f, c);
      while i > 0
        invariant i <= Capacity(c) && Threaded(words, freeList, Objects(f, c, i)) && PaintedFrom(words, f, c, i)
        invariant forall a :: a in old(words) && a / 4096 != f ==> a in words && words[a] == old(words)[a]
      {
        i := i - 1;
        var slot := ObjectAt(f, c, i);
        NotAmong(f, c, i);
        PaintNext(words, freeList, f, c, i);
        words := Paint(words, slot, ClassSize(c));
        ThreadPush(words, freeList, Objects(f, c, i + 1), slot);
        LinkKeepsPaint(words, f, c, i, i, freeList);
        words := words[slot := freeList];
        freeList := slot;
      }
    }

    method Kmalloc(size: nat, frame: Option<nat>) returns (ptr: Option<nat>)
      requires Valid() && Allowed(h, OpMalloc(size, frame))
      modifies this
      ensures Valid() && Malloc(old(h), size, frame) == Allocated(h, ptr)
      ensures old(Guarded()) ==> Guarded()
    {
      hide Good, AllHeld, MallocSmall, MallocLarge, Fresh, AllPainted;
      OrderIs(h);
      var asked := if size == 0 then 1 else size;
      var cls := ClassFor(asked, 0);
      if cls.None? {
        ptr := LargeAlloc(asked, frame);
      } else {
        ptr := SlabAlloc(cls.value, asked, frame);
      }
    }

    method LargeAlloc(size: nat, base: Option<nat>) returns (ptr: Option<nat>)
      requires Valid() && (base.Some? ==> Fresh(h, base.value, LargeFrames(size)))
      modifies this
      ensures Valid() && MallocLarge(old(h), size, base) == Allocated(h, ptr)
      ensures old(Guarded()) ==> Guarded()
    {
      hide Good, AllHeld, Fresh, Adds, LargeFrames, PaintedFrom;
      MallocLargeAdds(h, size, base);
      var frames := LargeFrames(size);
      if FramesGiven(frames, base).None? {
        return None;
      }
      ghost var g := MallocLarge(h, size, base).h;
      SameSlabs(words, headers, h, g);
      h := g;
      trailers := trailers[base.value := Trailer(frames, size % WORD32)];
      bytes, live, total := bytes + size, live + 1, total + 1;
      return Some(4096 * base.value + TRAILER);
    }

    method SlabAlloc(c: nat, size: nat, frame: Option<nat>) returns (ptr: Option<nat>)
      requires Valid() && c < CLASSES && c < |h.order| && (frame.Some? ==> Fresh(h, frame.value, 1))
      modifies this
      ensures Valid() && MallocSmall(old(h), c, size, frame) == Allocated(h, ptr)
      ensures old(Guarded()) ==> Guarded()
    {
      hide Good, AllHeld, Fresh, Adds, WithSlab, Take, Capacity, Objects, AllPainted;
      HeadIs(h, c);
      SameKeys(words, headers, h);
      if order[c] == [] || headers[order[c][0]].freeList == 0 {
        NoRoom(words, headers, h, c);
        if frame.None? {
          return None;
        }
        WithSlabHead(h, c, frame.value);
        SlabCreate(c, frame.value);
      } else {
        SomeRoom(words, headers, h, c);
      }
      ptr := TakeFirst(order[c][0], size);
    }

    /** Takes the first object off a slab's free list and paints its guard bands. */
    method TakeFirst(f: nat, size: nat) returns (ptr: Option<nat>)
      requires Valid() && f in h.slabs && h.slabs[f].free != []
      modifies this
      ensures Valid() && ptr.Some? && Take(old(h), f, size) == (h, ptr.value)
      ensures old(Guarded()) ==> Guarded()
    {
      hide Good, SlabGood, Threaded, Live, Adds, AllHeld, AllPainted, PaintedFrom, Paint, Capacity, ObjectAt;
      TakeGood(h, f, size);
      SlabsGood(h);
      ghost var s, g, before, was := h.slabs[f], Take(h, f, size).0, words, headers;
      OneSlab(words, headers, h, f);
      var head := headers[f].freeList;
      ThreadPop(words, head, s.free);
      assert head in s.free;
      var rest := words[head];
      ghost var i := ObjectIndex(f, s, head);
      PaintKeepsThread(words, f, s, i, rest, s.free[1..]);
      PaintInFrame(words, f, s.cls, i);
      words := Paint(words, head, ClassSize(headers[f].cls));
      headers := headers[f := Header(headers[f].cls, headers[f].inUse + 1, rest)];
      OneHeld(before, words, was, headers, h, g, f);
      if AllPainted(before, h) {
        SlabPainted(before, h, f);
        PaintKeepsPaint(before, f, s.cls, 0, head, ClassSize(s.cls));
        StillPainted(before, words, h, g, f);
      }
      bytes, live, total := bytes + size, live + 1, total + 1;
      h := g;
      return Some(head);
    }

    /** Frees an object, unless it lies in a slab and one of its guard bands is damaged. Freeing
        no object is legal and does nothing. As long as holders write only into their objects,
        every free goes through. */
    method Kfree(p: nat) returns (freeing: bool)
      requires Valid() && (p == 0 || Allowed(h, OpFree(p)))
      modifies this
      ensures Valid() && h == if freeing then Free(old(h), p) else old(h)
      ensures p / 4096 in old(h).slabs && p > 0 ==> p >= GUARD
      ensures freeing <==> p > 0 && (p / 4096 in old(h).slabs ==> Painted(old(words), p, ClassSize(old(h).slabs[p / 4096].cls)))
      ensures old(Guarded()) ==> Guarded() && (freeing <==> p > 0)
    {
      if p == 0 {
        return false;
      }
      var f := p / 4096;
      OrderIs(h);
      StepGood(h, OpFree(p));
      hide Good, Threaded, Live, AllHeld, Allowed, AllPainted, Painted, Free;
      SameKeys(words, headers, h);
      if f in headers {
        ghost var i := FreedIsNew(h, p);
        OneSlab(words, headers, h, f);
        if AllPainted(words, h) {
          LiveIsPainted(words, h, p);
        }
        freeing := Painted(words, p, ClassSize(headers[f].cls));
        if freeing {
          Recycle(p);
        }
      } else {
        ReturnFrames(p);
        freeing := true;
      }
    }

    /** A large block's frames go back to the frame allocator. */
    method ReturnFrames(p: nat)
      requires Valid() && Allowed(h, OpFree(p)) && p / 4096 !in h.slabs && Good(Free(h, p))
      modifies this
      ensures Valid() && h == Free(old(h), p)
      ensures old(Guarded()) ==> Guarded()
    {
      hide Good, Threaded, Live, AllHeld, Allowed, AllPainted;
      NotSmall(h, p);
      ghost var g := Free(h, p);
      SameSlabs(words, headers, h, g);
      if AllPainted(words, h) {
        SamePaint(words, h, g);
      }
      trailers := trailers - {p / 4096};
      live, freed := Dec(live), freed + 1;
      h := g;
    }

    /** A slab object goes to the front of its slab's free list, its guard bands painted anew. */
    method Recycle(p: nat)
      requires Valid() && Allowed(h, OpFree(p)) && p / 4096 in h.slabs && Good(Free(h, p))
      modifies this
      ensures Valid() && h == Free(old(h), p)
      ensures old(Guarded()) ==> Guarded()
    {
      hide Good, SlabGood, Threaded, Live, Allowed, AllHeld, AllPainted, PaintedFrom, Paint, Capacity, ObjectAt;
      var f := p / 4096;
      SlabsGood(h);
      ghost var i := FreedIsNew(h, p);
      ghost var s, g, before, was := h.slabs[f], Free(h, p), words, headers;
      OneSlab(words, headers, h, f);
      var list := headers[f].freeList;
      PaintKeepsThread(words, f, s, i, list, s.free);
      PaintInFrame(words, f, s.cls, i);
      words := Paint(words, p, ClassSize(headers[f].cls));
      ThreadPush(words, list, s.free, p);
      ghost var painted := words;
      words := words[p := list];
      headers := headers[f := Header(headers[f].cls, Dec(headers[f].inUse), p)];
      OneHeld(before, words, was, headers, h, g, f);
      if AllPainted(before, h) {
        SlabPainted(before, h, f);
        PaintKeepsPaint(before, f, s.cls, 0, p, ClassSize(s.cls));
        LinkKeepsPaint(painted, f, s.cls, 0, i, list);
        StillPainted(before, words, h, g, f);
      }
      live, freed := Dec(live), freed + 1;
      h := g;
    }

    /** The holder of a live object writes a byte of it that was granted: what the words that hold the byte become
        does not matter, as long as the others stay. */
    method UserWrite(ghost p: nat, ghost m: nat, a: nat, after: map<nat, nat>)
      requires Valid() && Owned(h, p, m, a)
      requires forall q :: q in words && !Covers(q, a) ==> q in after && after[q] == words[q]
      modifies this`words
      ensures Valid() && words == after
      ensures old(Guarded()) ==> Guarded()
    {
      WriteKeeps(words, after, headers, h, p, m, a);
      if Guarded() {
        WriteKeepsPaint(words, after, h, p, m, a);
      }
      hide Good, AllHeld, Owned, AllPainted;
      words := after;
    }

    /** Walks every free list, counting; the walk is cut off when it passes the capacity. */
    method HeapCheck() returns (ok: bool)
      requires Valid()
      ensures ok
    {
      OrderIs(h);
      for c := 0 to CLASSES {
        for k := 0 to |order[c]| {
          var f := order[c][k];
          OrderedSlab(h, c, k);
          GoodSlab(h, f);
          assert Held(words, headers, f, h.slabs[f]);
          if headers[f].cls != c {
            return false;
          }
          var good := CheckSlab(f);
          if !good {
            return false;
          }
        }
      }
      return true;
    }

    method CheckSlab(f: nat) returns (ok: bool)
      requires Valid() && f in h.slabs && f in headers
      ensures ok
    {
      GoodSlab(h, f);
      ghost var s := h.slabs[f];
      OneSlab(words, headers, h, f);
      hide Good, Capacity, Threaded, AllHeld;
      var node, seen: nat := headers[f].freeList, 0;
      assert s.free[0..] == s.free;
      ThreadPop(words, node, s.free);
      while node != 0
        invariant seen <= |s.free| && Threaded(words, node, s.free[seen..]) && (node == 0 <==> seen == |s.free|)
        decreases |s.free| - seen
      {
        ThreadPop(words, node, s.free[seen..]);
        assert s.free[seen..][1..] == s.free[seen + 1..];
        seen := seen + 1;
        if seen > Capacity(headers[f].cls) {
          return false;
        }
        node := words[node];
        ThreadPop(words, node, s.free[seen..]);
      }
      ok := seen == Capacity(headers[f].cls) - headers[f].inUse;
    }
  }

  lemma NoThread(words: map<nat, nat>)
    ensures Threaded(words, 0, [])
  {
  }

  lemma SameKeys(words: map<nat, nat>, headers: map<nat, Header>, h: Heap)
    requires AllHeld(words, headers, h)
    ensures headers.Keys == h.slabs.Keys
  {
  }

  lemma SameSlabs(words: map<nat, nat>, headers: map<nat, Header>, h: Heap, g: Heap)
    requires AllHeld(words, headers, h) && g.slabs == h.slabs
    ensures AllHeld(words, headers, g)
  {
  }

  lemma OneSlab(words: map<nat, nat>, headers: map<nat, Header>, h: Heap, f: nat)
    requires AllHeld(words, headers, h) && f in h.slabs
    ensures f in headers && headers[f].cls == h.slabs[f].cls && headers[f].inUse == h.slabs[f].inUse
    ensures Threaded(words, headers[f].freeList, h.slabs[f].free)
  {
    assert Held(words, headers, f, h.slabs[f]);
  }

  lemma WriteKeeps(words: map<nat, nat>, after: map<nat, nat>, headers: map<nat, Header>, h: Heap, p: nat, m: nat, a: nat)
    requires Good(h) && AllHeld(words, headers, h) && Owned(h, p, m, a)
    requires forall q :: q in words && !Covers(q, a) ==> q in after && after[q] == words[q]
    ensures AllHeld(after, headers, h)
  {
    forall f | f in h.slabs ensures Held(after, headers, f, h.slabs[f]) {
      assert Held(words, headers, f, h.slabs[f]);
      forall q | q in h.slabs[f].free ensures !Covers(q, a) {
        WriteIsApart(h, p, m, a, f, q);
      }
      hide Good, Owned, AllHeld, Covers;
      ThreadKeeps(words, after, headers[f].freeList, h.slabs[f].free);
    }
  }

  lemma WriteKeepsPaint(words: map<nat, nat>, after: map<nat, nat>, h: Heap, p: nat, m: nat, a: nat)
    requires Good(h) && AllPainted(words, h) && Owned(h, p, m, a)
    requires forall q :: q in words && !Covers(q, a) ==> q in after && after[q] == words[q]
    ensures AllPainted(after, h)
  {
    forall f | f in h.slabs ensures PaintedFrom(after, f, h.slabs[f].cls, 0) {
      assert PaintedFrom(words, f, h.slabs[f].cls, 0);
      forall j | 0 <= j < Capacity(h.slabs[f].cls)
        ensures ObjectAt(f, h.slabs[f].cls, j) >= GUARD
        ensures Painted(after, ObjectAt(f, h.slabs[f].cls, j), ClassSize(h.slabs[f].cls))
      {
        WriteMissesGuards(h, p, m, a, f, j);
      }
    }
  }

  lemma NotThere(h: Heap, f: nat)
    requires Fresh(h, f, 1)
    ensures f > 0 && f !in h.slabs
  {
    assert !Taken(h, f);
  }

  lemma NothingPainted(words: map<nat, nat>, f: nat, c: nat)
    ensures PaintedFrom(words, f, c, Capacity(c))
  {
  }

  /** Painting the next object down keeps the links and the paint of those above it. */
  lemma PaintNext(words: map<nat, nat>, head: nat, f: nat, c: nat, i: nat)
    requires i < Capacity(c) && Threaded(words, head, Objects(f, c, i + 1)) && PaintedFrom(words, f, c, i + 1)
    ensures ObjectAt(f, c, i) >= GUARD
    ensures var after := Paint(words, ObjectAt(f, c, i), ClassSize(c));
      && Threaded(after, head, Objects(f, c, i + 1)) && PaintedFrom(after, f, c, i)
      && forall a :: a in words && a / 4096 != f ==> a in after && after[a] == words[a]
  {
    var p := ObjectAt(f, c, i);
    GuardsApart(f, c, i, i);
    PaintKeepsPaint(words, f, c, i + 1, p, ClassSize(c));
    var list := Objects(f, c, i + 1);
    forall k | 0 <= k < |list|
      ensures list[k] != p - GUARD && list[k] != p + ClassSize(c)
    {
      GuardsApart(f, c, i, i + 1 + k);
    }
    ThreadKeeps(words, Paint(words, p, ClassSize(c)), head, list);
  }

  /** The number of a free object. */
  ghost function ObjectIndex(f: nat, s: Slab, p: nat): (i: nat)
    requires SlabGood(f, s) && p in s.free
    ensures i < Capacity(s.cls) && p == ObjectAt(f, s.cls, i)
  {
    var i: nat :| i < Capacity(s.cls) && p == ObjectAt(f, s.cls, i);
    i
  }

  lemma PaintKeepsThread(words: map<nat, nat>, f: nat, s: Slab, i: nat, head: nat, list: seq<nat>)
    requires SlabGood(f, s) && i < Capacity(s.cls) && Threaded(words, head, list)
    requires forall q :: q in list ==> q in s.free
    ensures ObjectAt(f, s.cls, i) >= GUARD
    ensures Threaded(Paint(words, ObjectAt(f, s.cls, i), ClassSize(s.cls)), head, list)
  {
    var p := ObjectAt(f, s.cls, i);
    GuardsApart(f, s.cls, i, i);
    forall q | q in list ensures q != p - GUARD && q != p + ClassSize(s.cls) {
      PaintIsApart(f, s, i, q);
    }
    ThreadKeeps(words, Paint(words, p, ClassSize(s.cls)), head, list);
  }

  lemma PaintInFrame(words: map<nat, nat>, f: nat, c: nat, i: nat)
    requires i < Capacity(c)
    ensures ObjectAt(f, c, i) >= GUARD
    ensures var after := Paint(words, ObjectAt(f, c, i), ClassSize(c));
      forall a :: a in words && a / 4096 != f ==> a in after && after[a] == words[a]
  {
    GuardsApart(f, c, i, i);
  }

  lemma SlabPainted(words: map<nat, nat>, h: Heap, f: nat)
    requires AllPainted(words, h) && f in h.slabs
    ensures PaintedFrom(words, f, h.slabs[f].cls, 0)
  {
  }

  lemma SamePaint(words: map<nat, nat>, h: Heap, g: Heap)
    requires AllPainted(words, h) && g.slabs == h.slabs
    ensures AllPainted(words, g)
  {
  }

  lemma LiveIsPainted(words: map<nat, nat>, h: Heap, p: nat)
    requires Good(h) && Allowed(h, OpFree(p)) && p / 4096 in h.slabs && AllPainted(words, h)
    ensures p >= GUARD && Painted(words, p, ClassSize(h.slabs[p / 4096].cls))
  {
    var i := FreedIsNew(h, p);
    assert PaintedFrom(words, p / 4096, h.slabs[p / 4096].cls, 0);
  }

  lemma NotSmall(h: Heap, p: nat)
    requires Good(h) && Allowed(h, OpFree(p)) && p / 4096 !in h.slabs
    ensures p / 4096 in h.large
  {
    var m: nat :| Live(h, p, m);
    if LiveSmall(h, p, m) {
      FreeSmall(h, p, m);
    } else {
      FreeLarge(h, p, m);
    }
  }

  lemma NotAmong(f: nat, c: nat, i: nat)
    requires i < Capacity(c)
    ensures ObjectAt(f, c, i) !in Objects(f, c, i + 1)
    ensures Objects(f, c, i) == [ObjectAt(f, c, i)] + Objects(f, c, i + 1)
    ensures ObjectAt(f, c, i) / 4096 == f && ObjectAt(f, c, i) > 0
  {
    ObjectsFit(c, i);
    var s := Objects(f, c, i + 1);
    forall k | 0 <= k < |s| ensures s[k] != ObjectAt(f, c, i) {
      OffsetsApart(c, i, i + 1 + k);
    }
  }

  lemma GoodSlab(h: Heap, f: nat)
    requires Good(h) && f in h.slabs
    ensures SlabGood(f, h.slabs[f])
  {
  }

  lemma OrderIs(h: Heap)
    requires Good(h)
    ensures |h.order| == CLASSES
  {
  }

  lemma OrderedSlab(h: Heap, c: nat, k: nat)
    requires Good(h) && c < CLASSES && c < |h.order| && k < |h.order[c]|
    ensures h.order[c][k] in h.slabs && h.slabs[h.order[c][k]].cls == c
  {
  }

  lemma HeadIs(h: Heap, c: nat)
    requires Good(h) && c < CLASSES
    ensures c < |h.order| && (h.order[c] != [] ==> h.order[c][0] in h.slabs && SlabGood(h.order[c][0], h.slabs[h.order[c][0]]))
  {
  }

  lemma NoRoom(words: map<nat, nat>, headers: map<nat, Header>, h: Heap, c: nat)
    requires AllHeld(words, headers, h) && c < |h.order|
    requires h.order[c] == [] || (h.order[c][0] in headers && headers[h.order[c][0]].freeList == 0)
    ensures !HeadHasRoom(h, c)
  {
    if h.order[c] != [] && h.order[c][0] in h.slabs {
      OneSlab(words, headers, h, h.order[c][0]);
      ThreadPop(words, 0, h.slabs[h.order[c][0]].free);
    }
  }

  lemma SomeRoom(words: map<nat, nat>, headers: map<nat, Header>, h: Heap, c: nat)
    requires AllHeld(words, headers, h) && c < |h.order| && h.order[c] != [] && h.order[c][0] in headers
    requires headers[h.order[c][0]].freeList != 0
    ensures HeadHasRoom(h, c)
  {
    SameKeys(words, headers, h);
    OneSlab(words, headers, h, h.order[c][0]);
    ThreadPop(words, headers[h.order[c][0]].freeList, h.slabs[h.order[c][0]].free);
  }

  lemma WithSlabHead(h: Heap, c: nat, f: nat)
    requires c < |h.order|
    ensures var g := WithSlab(h, c, f);
      c < |g.order| && g.order[c] != [] && g.order[c][0] == f && f in g.slabs && g.slabs[f].free != []
  {
    EveryClassHasRoom(c);
  }

  lemma FreedIsNew(h: Heap, p: nat) returns (i: nat)
    requires Good(h) && Allowed(h, OpFree(p)) && p / 4096 in h.slabs
    ensures p > 0 && p !in h.slabs[p / 4096].free
    ensures i < Capacity(h.slabs[p / 4096].cls) && p == ObjectAt(p / 4096, h.slabs[p / 4096].cls, i) && p >= GUARD
  {
    var m: nat :| Live(h, p, m);
    if LiveSmall(h, p, m) {
      var g: nat, j: nat :| LiveAt(h, p, m, g, j);
      SmallInFrame(h, p, m, g, j);
      i := j;
    } else {
      FreeLarge(h, p, m);
    }
  }
}
