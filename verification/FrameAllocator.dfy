/** The physical memory manager: a bitmap, a byte of references per frame, a free counter
    and a search hint, all updated in place. */
module FrameAllocator {
  import opened Frames

  class Pmm {
    const bitmap: array<bv8>
    const refcount: array<nat>
    const frameCount: nat
    var freeFrames: nat
    var searchHint: nat

    /** The bitmap refines a free set, and frame 0, whose address means "none", is never free. */
    ghost predicate Valid()
      reads this, bitmap, refcount
    {
      Counted() && View().used[0]
    }

    /** The counter counts clear bits, and a free frame has no owners. */
    ghost predicate Counted()
      reads this, bitmap, refcount
    {
      && Shaped()
      && 0 < frameCount <= 0x8000_0000
      && searchHint < frameCount
      && Consistent(View())
      && freeFrames == FreeCount(View().used)
    }

    ghost predicate Shaped() {
      bitmap.Length * 8 >= frameCount && refcount.Length >= frameCount && bitmap as object != refcount
    }

    ghost function View(): (s: Frames)
      requires Shaped()
      reads bitmap, refcount
      ensures |s.used| == |s.owners| == frameCount
    {
      Frames(UsedBits(), refcount[..frameCount])
    }

    ghost function UsedBits(): (used: seq<bool>)
      requires Shaped()
      reads bitmap
      ensures |used| == frameCount
    {
      seq(frameCount, f requires 0 <= f < frameCount reads bitmap => BitSet(bitmap[f / 8], f % 8))
    }

    /** Everything starts in use; the usable ranges are freed, then the null page and
        everything else that must survive is reserved. */
    constructor (frames: nat, usable: seq<Range>, keep: seq<Range>)
      requires 1024 <= frames <= 0x8000_0000
      ensures Valid() && frameCount == frames && searchHint == 0
      ensures forall f :: 0 <= f < frames ==> View().owners[f] == 0
      ensures forall f :: 0 <= f < frames ==>
        (!View().used[f] <==> f > 0 && InsideAny(f, usable) && !TouchesAny(f, keep))
    {
      bitmap := new bv8[(frames + 7) / 8](_ => 0xFF);
      refcount := new nat[frames](_ => 0);
      frameCount := frames;
      freeFrames := 0;
      searchHint := 0;
      new;
      hide FreeCount, BitSet, Reserved, Inside, Touches, InsideAny, TouchesAny;
      AllBitsSet();
      Populate(usable, keep);
    }

    method Populate(usable: seq<Range>, keep: seq<Range>)
      requires Shaped() && 0 < frameCount <= 0x8000_0000 && searchHint == 0
      requires forall f :: 0 <= f < frameCount ==> View().used[f] && View().owners[f] == 0
      modifies this`freeFrames, bitmap, refcount
      ensures Valid()
      ensures forall f :: 0 <= f < frameCount ==> View().owners[f] == 0
      ensures forall f :: 0 <= f < frameCount ==>
        (!View().used[f] <==> f > 0 && InsideAny(f, usable) && !TouchesAny(f, keep))
    {
      hide FreeCount, BitSet, UsedBits, View, Reserved, Inside, Touches, InsideAny, TouchesAny;
      FreeUsable(usable);
      CountFree();
      NullPage();
      ReserveRange(Range(0, FRAME_SIZE));
      ReserveAll(keep);
    }

    method FreeUsable(usable: seq<Range>)
      requires Shaped()
      requires forall f :: 0 <= f < frameCount ==> View().used[f]
      modifies bitmap
      ensures View().owners == old(View()).owners
      ensures forall f :: 0 <= f < frameCount ==> (!View().used[f] <==> InsideAny(f, usable))
    {
      hide FreeCount, BitSet, Inside, Touches, UsedBits;
      for i := 0 to |usable|
        invariant View().owners == old(View()).owners
        invariant forall f :: 0 <= f < frameCount ==> (!View().used[f] <==> InsideAny(f, usable[..i]))
      {
        assert usable[..i + 1] == usable[..i] + [usable[i]];
        MarkRangeFree(usable[i]);
      }
      assert usable[..|usable|] == usable;
    }

    method ReserveAll(keep: seq<Range>)
      requires Counted()
      modifies this`freeFrames, bitmap, refcount
      ensures Counted() && View().owners == old(View()).owners
      ensures forall f :: 0 <= f < frameCount ==> (View().used[f] <==> old(View()).used[f] || TouchesAny(f, keep))
    {
      hide FreeCount, BitSet, Inside, Touches, UsedBits, Reserved, Consistent;
      for i := 0 to |keep|
        invariant Counted() && View().owners == old(View()).owners
        invariant forall f :: 0 <= f < frameCount ==> (View().used[f] <==> old(View()).used[f] || TouchesAny(f, keep[..i]))
      {
        assert keep[..i + 1] == keep[..i] + [keep[i]];
        ReserveRange(keep[i]);
      }
      assert keep[..|keep|] == keep;
    }

    /** The frames inside a range, before there is any owner. */
    method MarkRangeFree(r: Range)
      requires Shaped()
      modifies bitmap
      ensures View().owners == old(View()).owners
      ensures forall f :: 0 <= f < frameCount ==> (View().used[f] <==> old(View()).used[f] && !Inside(f, r))
    {
      hide BitSet, UsedBits, FrameOf, Sum;
      if r.size == 0 {
        NothingInside(r);
        return;
      }
      FrameOfSum(r.base, FRAME_SIZE - 1);
      FrameOfSum(r.base, r.size);
      var first := FrameOf(Sum(r.base, FRAME_SIZE - 1));
      var last := FrameOf(Sum(r.base, r.size));
      if last > frameCount {
        last := frameCount;
      }
      var f := first;
      while f < last
        invariant first <= f && (f == first || f <= last)
        invariant View().owners == old(View()).owners
        invariant forall g :: 0 <= g < frameCount ==> (View().used[g] <==> old(View()).used[g] && !(first <= g < f))
      {
        var used := IsUsed(f);
        if used {
          MarkFree(f);
        }
        f := f + 1;
      }
    }

    method CountFree()
      requires Shaped()
      modifies this`freeFrames
      ensures freeFrames == FreeCount(View().used) && searchHint == old(searchHint)
    {
      hide BitSet, UsedBits;
      freeFrames := 0;
      for f := 0 to frameCount
        invariant freeFrames == FreeCount(View().used[..f]) && searchHint == old(searchHint)
      {
        var used := IsUsed(f);
        assert View().used[..f + 1][..f] == View().used[..f];
        if !used {
          freeFrames := freeFrames + 1;
        }
      }
      assert View().used[..frameCount] == View().used;
    }

    /** Takes the free frames that a range touches out of use. Frames in use stay as they are,
        with their owners. */
    method ReserveRange(r: Range)
      requires Counted()
      modifies this`freeFrames, bitmap, refcount
      ensures Counted() && View() == Reserved(old(View()), r)
    {
      hide FreeCount, BitSet, UsedBits, Reserved, FrameOf, Sum;
      ghost var s := View();
      if r.size == 0 {
        NothingInside(r);
        assert Reserved(s, r).used == s.used;
        return;
      }
      var first := FrameOf(r.base);
      FrameOfSum(r.base + r.size, FRAME_SIZE - 1);
      SumOfSum(r.base, r.size, FRAME_SIZE - 1);
      var last := FrameOf(Sum(Sum(r.base, r.size), FRAME_SIZE - 1));
      if last > frameCount {
        last := frameCount;
      }
      var before := 0;
      var f := first;
      while f < last
        invariant first <= f && (f == first || f <= last)
        invariant View().owners == s.owners && before <= freeFrames == old(freeFrames) && searchHint == old(searchHint)
        invariant FreeCount(View().used) == freeFrames - before
        invariant forall g :: 0 <= g < frameCount ==> (View().used[g] <==> s.used[g] || first <= g < f)
      {
        var used := IsUsed(f);
        if !used {
          before := before + 1;
          FreeCountAfter(View().used, f, true);
          MarkUsed(f);
          refcount[f] := 0;
        }
        f := f + 1;
      }
      if before > 0 {
        freeFrames := freeFrames - before;
      }
      assert View().used == Reserved(s, r).used;
    }

    /** Gives the frames inside a range back, those that have an owner excepted. The null page
        among them, "none" would become an address like any other. */
    method ReleaseRange(r: Range)
      requires Counted()
      modifies this`freeFrames, bitmap
      ensures Counted() && View() == Unreserved(old(View()), r)
      ensures Valid() <==> old(View()).used[0] && !(Inside(0, r) && old(View()).owners[0] == 0)
    {
      hide FreeCount, BitSet, UsedBits, Unreserved, FrameOf, Sum;
      ghost var s := View();
      if r.size == 0 {
        NothingInside(r);
        assert Unreserved(s, r).used == s.used;
        return;
      }
      FrameOfSum(r.base, FRAME_SIZE - 1);
      FrameOfSum(r.base, r.size);
      var first := FrameOf(Sum(r.base, FRAME_SIZE - 1));
      var last := FrameOf(Sum(r.base, r.size));
      if last > frameCount {
        last := frameCount;
      }
      var f := first;
      while f < last
        invariant first <= f && (f == first || f <= last)
        invariant View().owners == s.owners && searchHint == old(searchHint)
        invariant FreeCount(View().used) == freeFrames
        invariant forall g :: 0 <= g < frameCount ==>
          (View().used[g] <==> s.used[g] && !(first <= g < f && s.owners[g] == 0))
      {
        var used := IsUsed(f);
        if used && refcount[f] == 0 {
          FreeCountAfter(View().used, f, false);
          MarkFree(f);
          freeFrames := freeFrames + 1;
        }
        f := f + 1;
      }
      assert View().used == Unreserved(s, r).used;
    }

    method IsUsed(f: nat) returns (used: bool)
      requires Shaped() && f < frameCount
      ensures used == UsedBits()[f]
    {
      used := BitSet(bitmap[f / 8], f % 8);
    }

    method MarkUsed(f: nat)
      requires Shaped() && f < frameCount
      modifies bitmap
      ensures UsedBits() == old(UsedBits())[f := true]
    {
      bitmap[f / 8] := WithBit(bitmap[f / 8], f % 8);
      BitsElsewhere(f);
      forall g | 0 <= g < frameCount
        ensures UsedBits()[g] == old(UsedBits())[f := true][g]
      {
        BitWritten(old(bitmap[f / 8]), f % 8, g % 8);
      }
    }

    method MarkFree(f: nat)
      requires Shaped() && f < frameCount
      modifies bitmap
      ensures UsedBits() == old(UsedBits())[f := false]
    {
      bitmap[f / 8] := WithoutBit(bitmap[f / 8], f % 8);
      BitsElsewhere(f);
      forall g | 0 <= g < frameCount
        ensures UsedBits()[g] == old(UsedBits())[f := false][g]
      {
        BitWritten(old(bitmap[f / 8]), f % 8, g % 8);
      }
    }

    /** One frame, looked for from the hint around to the hint again; the next search begins
        behind it. */
    method AllocOne() returns (addr: nat)
      requires Valid()
      modifies this, bitmap, refcount
      ensures Valid()
      ensures searchHint == if addr == INVALID then old(searchHint) else Behind(FrameOf(addr), frameCount)
      ensures addr == INVALID <==> old(freeFrames) == 0
      ensures addr == INVALID ==> View() == old(View())
      ensures addr != INVALID ==>
        var f := FrameOf(addr);
        && addr == f * FRAME_SIZE && FirstFreeFrom(old(View()).used, old(searchHint), f)
        && View() == Taken(old(View()), f, 1) && freeFrames == old(freeFrames) - 1
    {
      hide Around, FreeCount, Consistent, UsedBits;
      ghost var s := View();
      for i := 0 to frameCount
        invariant Valid() && View() == s && searchHint == old(searchHint) && freeFrames == old(freeFrames)
        invariant forall j: nat :: j < i ==> s.used[Around(searchHint, j, frameCount)]
      {
        var f := Around(searchHint, i, frameCount);
        var used := IsUsed(f);
        if !used {
          AllocatesOne(s, f);
          MarkUsed(f);
          refcount[f] := 1;
          freeFrames := freeFrames - 1;
          NextAround(f, frameCount);
          searchHint := Around(f, 1, frameCount);
          assert View() == Taken(s, f, 1);
          assert f == Around(old(searchHint), i, frameCount);
          AddressOf(f);
          return f * FRAME_SIZE;
        }
      }
      AllVisited(s.used, searchHint);
      NothingFree(s.used);
      return INVALID;
    }

    /** A contiguous run, first fit from frame 0. */
    method AllocRun(count: nat) returns (addr: nat)
      requires Valid() && count > 1
      modifies this`freeFrames, bitmap, refcount
      ensures Valid()
      ensures addr == INVALID ==> View() == old(View()) && forall at :: 0 <= at ==> !FreeRun(View().used, at, count)
      ensures addr != INVALID ==>
        var f := FrameOf(addr);
        && addr == f * FRAME_SIZE && FreeRun(old(View()).used, f, count)
        && (forall at :: 0 <= at < f ==> !FreeRun(old(View()).used, at, count))
        && View() == Taken(old(View()), f, count) && freeFrames == old(freeFrames) - count
    {
      hide FreeCount, Consistent, UsedBits;
      ghost var s := View();
      var runStart, runLength := 0, 0;
      for f := 0 to frameCount
        invariant Valid() && View() == s && freeFrames == old(freeFrames)
        invariant runLength <= f && runLength < count
        invariant runLength > 0 ==> runStart == f - runLength
        invariant FreeRun(s.used, f - runLength, runLength)
        invariant f - runLength > 0 ==> s.used[f - runLength - 1]
        invariant forall at :: 0 <= at < f - runLength ==> !FreeRun(s.used, at, count)
      {
        var used := IsUsed(f);
        if used {
          RunsBlocked(s.used, f - runLength, f, count);
          runLength := 0;
          continue;
        }
        if runLength == 0 {
          runStart := f;
        }
        runLength := runLength + 1;
        if runLength == count {
          TakeRun(runStart, count);
          AddressOf(runStart);
          return runStart * FRAME_SIZE;
        }
      }
      return INVALID;
    }

    method TakeRun(start: nat, count: nat)
      requires Valid() && count > 0 && FreeRun(View().used, start, count)
      modifies this`freeFrames, bitmap, refcount
      ensures Valid() && start > 0
      ensures View() == Taken(old(View()), start, count) && freeFrames == old(freeFrames) - count
    {
      hide FreeCount, BitSet, Consistent, UsedBits, Fill, FreeRun, Taken, View;
      RunTaken(View(), start, count);
      MarkRun(start, count);
      freeFrames := freeFrames - count;
    }

    method MarkRun(start: nat, count: nat)
      requires Shaped() && start + count <= frameCount
      modifies bitmap, refcount
      ensures View() == Taken(old(View()), start, count)
    {
      hide FreeCount, BitSet, UsedBits, Fill, FreeRun;
      ghost var s := View();
      FillNone(s.used, start, true);
      FillNone(s.owners, start, 1);
      for k := start to start + count
        invariant View() == Taken(s, start, k - start)
      {
        FillStep(s.used, start, k - start, true);
        FillStep(s.owners, start, k - start, 1);
        MarkAllocated(k);
      }
    }

    method MarkAllocated(f: nat)
      requires Shaped() && f < frameCount
      modifies bitmap, refcount
      ensures View() == Frames(old(View()).used[f := true], old(View()).owners[f := 1])
    {
      hide BitSet, UsedBits;
      MarkUsed(f);
      refcount[f] := 1;
    }

    /** AF_FRAME_INVALID when nothing is asked for or nothing fits. */
    method AllocFrames(count: nat) returns (addr: nat)
      requires Valid()
      modifies this, bitmap, refcount
      ensures Valid()
      ensures addr == INVALID <==>
        count == 0 || forall at :: 0 <= at ==> !FreeRun(old(View()).used, at, count)
      ensures addr == INVALID ==> View() == old(View())
      ensures addr != INVALID ==>
        var f := FrameOf(addr);
        && addr == f * FRAME_SIZE && FreeRun(old(View()).used, f, count)
        && (count == 1 ==> FirstFreeFrom(old(View()).used, old(searchHint), f))
        && (count > 1 ==> forall at :: 0 <= at < f ==> !FreeRun(old(View()).used, at, count))
        && View() == Taken(old(View()), f, count)
      ensures searchHint == if addr != INVALID && count == 1 then Behind(FrameOf(addr), frameCount) else old(searchHint)
    {
      hide FreeCount, BitSet, Consistent, FirstFreeFrom;
      if count == 0 {
        return INVALID;
      }
      if count > freeFrames {
        NoRoomForRun(View().used, count);
        return INVALID;
      }
      if count == 1 {
        SingleRuns(View().used, searchHint);
        addr := AllocOne();
        return;
      }
      addr := AllocRun(count);
    }

    method FrameValid(addr: nat) returns (valid: bool)
      ensures valid <==> addr != INVALID && addr % FRAME_SIZE == 0 && FrameOf(addr) < frameCount
      ensures addr < ADDRESS_END ==> FrameOf(addr) == addr / FRAME_SIZE
    {
      FrameOfIsExact(addr);
      valid := addr != INVALID && addr % FRAME_SIZE == 0 && FrameOf(addr) < frameCount;
    }

    /** Frees a frame with at most one owner; `freed` is false where the source reports the
        call and ignores it. */
    method FreeFrame(addr: nat) returns (freed: bool)
      requires Valid()
      modifies this, bitmap, refcount
      ensures Counted() && View() == Freed(old(View()), addr)
      ensures addr < ADDRESS_END ==> Valid()
      ensures freed <==> Managed(old(View()), addr) && old(View()).used[FrameOf(addr)] && old(View()).owners[FrameOf(addr)] <= 1
      ensures freeFrames == if freed then old(freeFrames) + 1 else old(freeFrames)
      ensures searchHint == if freed && FrameOf(addr) < old(searchHint) then FrameOf(addr) else old(searchHint)
    {
      freed := FreeCounted(addr);
      if addr < ADDRESS_END {
        NotFrameZero(addr);
      }
    }

    method FreeCounted(addr: nat) returns (freed: bool)
      requires Counted()
      modifies this, bitmap, refcount
      ensures Counted() && View() == Freed(old(View()), addr)
      ensures freed <==> Managed(old(View()), addr) && old(View()).used[FrameOf(addr)] && old(View()).owners[FrameOf(addr)] <= 1
      ensures freeFrames == if freed then old(freeFrames) + 1 else old(freeFrames)
      ensures searchHint == if freed && FrameOf(addr) < old(searchHint) then FrameOf(addr) else old(searchHint)
    {
      hide FreeCount, BitSet, UsedBits, FrameOf;
      var valid := FrameValid(addr);
      if !valid {
        return false;
      }
      var f := FrameOf(addr);
      ghost var s := View();
      var used := IsUsed(f);
      if !used {
        return false;
      }
      if refcount[f] > 1 {
        return false;
      }
      FreeCountAfter(s.used, f, false);
      MarkFree(f);
      refcount[f] := 0;
      freeFrames := freeFrames + 1;
      assert View() == Released(s, f, 1);
      if f < searchHint {
        searchHint := f;
      }
      freed := true;
    }

    method FreeFrames(base: nat, count: nat)
      requires Valid()
      modifies this, bitmap, refcount
      ensures Counted() && View() == FreedMany(old(View()), base, count) && searchHint <= old(searchHint)
      ensures base + count * FRAME_SIZE <= ADDRESS_END ==> Valid()
    {
      hide FreeCount, BitSet, UsedBits, Consistent, View, Freed;
      for i := 0 to count
        invariant Counted() && View() == FreedMany(old(View()), base, i) && searchHint <= old(searchHint)
        invariant base + i * FRAME_SIZE <= ADDRESS_END ==> View().used[0]
      {
        ghost var s := View();
        var freed := FreeCounted(base + i * FRAME_SIZE);
        ZeroStays(s, base + i * FRAME_SIZE);
      }
    }

    /** One more owner, up to 255. Valid afterwards exactly unless a free frame was given one. */
    method FrameRef(addr: nat)
      requires Valid()
      modifies refcount
      ensures View() == if Managed(old(View()), addr) then AddOwner(old(View()), FrameOf(addr)) else old(View())
      ensures Valid() <==> (Managed(old(View()), addr) ==> old(View()).used[FrameOf(addr)])
    {
      hide FreeCount, BitSet, UsedBits, FrameOf;
      var valid := FrameValid(addr);
      if !valid {
        return;
      }
      var f := FrameOf(addr);
      AddOwnerIsSafeExactlyWhenHeld(View(), f);
      if refcount[f] == REFCOUNT_MAX {
        return;
      }
      ghost var bits := UsedBits();
      refcount[f] := refcount[f] + 1;
      assert UsedBits() == bits;
    }

    /** One owner fewer; the last one frees. */
    method FrameUnref(addr: nat)
      requires Valid()
      modifies this`freeFrames, bitmap, refcount
      ensures Counted()
      ensures View() == if Managed(old(View()), addr) then DropOwner(old(View()), FrameOf(addr)) else old(View())
      ensures addr < ADDRESS_END ==> Valid()
      ensures freeFrames == old(freeFrames) + if View().used != old(View()).used then 1 else 0
    {
      hide FreeCount, BitSet, UsedBits, FrameOf;
      var valid := FrameValid(addr);
      if !valid {
        return;
      }
      var f := FrameOf(addr);
      if refcount[f] == 0 {
        return;
      }
      ghost var s := View();
      if addr < ADDRESS_END {
        NotFrameZero(addr);
      }
      refcount[f] := refcount[f] - 1;
      assert UsedBits() == s.used;
      if refcount[f] == 0 {
        FreeCountAfter(s.used, f, false);
        MarkFree(f);
        freeFrames := freeFrames + 1;
      }
    }

    /** The longest run of free frames. */
    method LargestFreeRun() returns (longest: nat)
      requires Valid()
      ensures forall at, n: nat :: 0 <= at && FreeRun(View().used, at, n) ==> n <= longest
      ensures exists at :: 0 <= at && FreeRun(View().used, at, longest)
    {
      hide FreeCount, BitSet, Consistent, UsedBits;
      ghost var used := View().used;
      ghost var best := 0;
      longest := 0;
      var current := 0;
      for f := 0 to frameCount
        invariant current <= f && current <= longest
        invariant FreeRun(used, f - current, current) && (f > current ==> used[f - current - 1])
        invariant 0 <= best && FreeRun(used, best, longest)
        invariant forall at, n: nat :: 0 <= at && at + n <= f && FreeRun(used, at, n) ==> n <= longest
      {
        var taken := IsUsed(f);
        RunsEnding(used, f, current, longest);
        if taken {
          current := 0;
          continue;
        }
        current := current + 1;
        if current > longest {
          longest := current;
          best := f + 1 - current;
        }
      }
      assert FreeRun(View().used, best, longest);
    }
  }

  /** The frame after `f`; frame 0 after the last. */
  function Behind(f: nat, frames: nat): nat {
    if f + 1 == frames then 0 else f + 1
  }

  lemma NextAround(f: nat, frames: nat)
    requires f < frames
    ensures Around(f, 1, frames) == Behind(f, frames)
  {
  }

  predicate InsideAny(f: nat, rs: seq<Range>) {
    exists r :: r in rs && Inside(f, r)
  }

  predicate TouchesAny(f: nat, rs: seq<Range>) {
    exists r :: r in rs && Touches(f, r)
  }

  lemma AllBitsSet()
    ensures forall k :: 0 <= k < 8 ==> BitSet(0xFF, k)
  {
  }

  lemma NothingInside(r: Range)
    requires r.size == 0
    ensures forall f: nat :: !Inside(f, r) && !Touches(f, r)
  {
  }

  lemma NullPage()
    ensures forall f: nat :: Touches(f, Range(0, FRAME_SIZE)) <==> f == 0
  {
  }

  lemma RunTaken(s: Frames, start: nat, count: nat)
    requires Consistent(s) && s.used != [] && s.used[0] && count > 0 && FreeRun(s.used, start, count)
    ensures start > 0 && start + count <= |s.used|
    ensures var t := Taken(s, start, count);
      Consistent(t) && t.used[0] && FreeCount(t.used) == FreeCount(s.used) - count >= 0
  {
    FreeCountOfRun(s.used, start, count);
    TakeThenRelease(s, start, count);
  }

  lemma FillNone<T>(s: seq<T>, at: nat, v: T)
    requires at <= |s|
    ensures Fill(s, at, 0, v) == s
  {
  }

  lemma FillStep<T>(s: seq<T>, at: nat, n: nat, v: T)
    requires at + n < |s|
    ensures Fill(s, at, n, v)[at + n := v] == Fill(s, at, n + 1, v)
  {
  }

  lemma BitsElsewhere(f: nat)
    ensures forall g: nat :: g != f && g / 8 == f / 8 ==> g % 8 != f % 8
  {
  }

  lemma AddressOf(f: nat)
    ensures f * FRAME_SIZE / FRAME_SIZE == f && (f > 0 ==> f * FRAME_SIZE != INVALID)
  {
  }

  lemma NotFrameZero(addr: nat)
    requires addr < ADDRESS_END
    ensures addr != INVALID && addr % FRAME_SIZE == 0 ==> FrameOf(addr) != 0
  {
    FrameOfIsExact(addr);
  }

  lemma ZeroStays(s: Frames, addr: nat)
    requires |s.used| == |s.owners| > 0
    ensures addr < ADDRESS_END && s.used[0] ==> Freed(s, addr).used[0]
  {
    if addr < ADDRESS_END {
      NotFrameZero(addr);
    }
  }

  lemma AllocatesOne(s: Frames, f: nat)
    requires Consistent(s) && f < |s.used| && !s.used[f]
    ensures FreeRun(s.used, f, 1) && Consistent(Taken(s, f, 1))
    ensures FreeCount(s.used) > 0 && FreeCount(Taken(s, f, 1).used) == FreeCount(s.used) - 1
    ensures Taken(s, f, 1) == Frames(s.used[f := true], s.owners[f := 1])
  {
    FreeCountOfRun(s.used, f, 1);
    TakeThenRelease(s, f, 1);
    assert Fill(s.used, f, 1, true) == s.used[f := true];
    assert Fill(s.owners, f, 1, 1) == s.owners[f := 1];
  }

  lemma AllVisited(used: seq<bool>, hint: nat)
    requires hint < |used|
    requires forall j: nat :: j < |used| ==> used[Around(hint, j, |used|)]
    ensures forall f :: 0 <= f < |used| ==> used[f]
  {
    forall f | 0 <= f < |used|
      ensures used[f]
    {
      var k := EveryFrameIsVisited(hint, |used|, f);
    }
  }

  lemma RunsBlocked(used: seq<bool>, from: nat, f: nat, count: nat)
    requires from <= f < |used| && used[f] && count > f - from
    ensures forall at :: from <= at < f + 1 ==> !FreeRun(used, at, count)
  {
  }

  lemma NoRoomForRun(used: seq<bool>, count: nat)
    requires count > FreeCount(used)
    ensures forall at :: 0 <= at ==> !FreeRun(used, at, count)
  {
    forall at | 0 <= at && FreeRun(used, at, count)
      ensures false
    {
      FreeCountOfRun(used, at, count);
    }
  }

  lemma SingleRuns(used: seq<bool>, hint: nat)
    ensures (exists at :: 0 <= at && FreeRun(used, at, 1)) <==> FreeCount(used) > 0
    ensures forall f :: FirstFreeFrom(used, hint, f) ==> FreeRun(used, f, 1)
  {
    NothingFree(used);
    if FreeCount(used) > 0 {
      var f :| 0 <= f < |used| && !used[f];
      assert FreeRun(used, f, 1);
    } else {
      forall at | 0 <= at
        ensures !FreeRun(used, at, 1)
      {
        assert at < |used| ==> used[at];
      }
    }
  }

  lemma RunsEnding(used: seq<bool>, f: nat, current: nat, longest: nat)
    requires f < |used| && current <= f && FreeRun(used, f - current, current) && current <= longest
    requires f > current ==> used[f - current - 1]
    requires forall at, n: nat :: 0 <= at && at + n <= f && FreeRun(used, at, n) ==> n <= longest
    ensures var most := if used[f] then longest else if current + 1 > longest then current + 1 else longest;
      forall at, n: nat :: 0 <= at && at + n <= f + 1 && FreeRun(used, at, n) ==> n <= most
  {
    forall at, n: nat | 0 <= at && at + n == f + 1 && FreeRun(used, at, n) && n > 0
      ensures !used[f] && n <= current + 1
    {
    }
  }
}
