/** Physical frames: what the bitmap and the reference counts stand for. */
module Frames {
  import opened Arithmetic

  const FRAME_SIZE: nat := 4096
  const REFCOUNT_MAX: nat := 0xFF

  /** AF_FRAME_INVALID, the address no allocation returns. */
  const INVALID: nat := 0

  // ---- one bitmap byte --------------------------------------------------------------------

  /** `1 << k` in a byte. */
  function Mask(k: nat): bv8
    requires k < 8
  {
    if k == 0 then 1 else if k == 1 then 2 else if k == 2 then 4 else if k == 3 then 8
    else if k == 4 then 16 else if k == 5 then 32 else if k == 6 then 64 else 128
  }

  predicate BitSet(b: bv8, k: nat)
    requires k < 8
  {
    b & Mask(k) != 0
  }

  function WithBit(b: bv8, k: nat): bv8
    requires k < 8
  {
    b | Mask(k)
  }

  function WithoutBit(b: bv8, k: nat): bv8
    requires k < 8
  {
    b & !Mask(k)
  }

  lemma BitWritten(b: bv8, k: nat, j: nat)
    requires k < 8 && j < 8
    ensures BitSet(WithBit(b, k), j) <==> j == k || BitSet(b, j)
    ensures BitSet(WithoutBit(b, k), j) <==> j != k && BitSet(b, j)
  {
    MasksApart(k, j);
    var m, n := Mask(k), Mask(j);
    assert (b | m) & n == (b & n) | (m & n);
    assert (b & !m) & n == b & (n & !m);
  }

  lemma MasksApart(k: nat, j: nat)
    requires k < 8 && j < 8
    ensures Mask(k) & Mask(j) == (if k == j then Mask(j) else 0)
    ensures Mask(j) & !Mask(k) == (if k == j then 0 else Mask(j))
    ensures Mask(j) != 0
  {
  }

  // ---- frames as values ---------------------------------------------------------------------

  /** `used[f]` is the bitmap bit of frame `f`, `owners[f]` its reference count. */
  datatype Frames = Frames(used: seq<bool>, owners: seq<nat>)

  ghost predicate Consistent(s: Frames) {
    && |s.used| == |s.owners|
    && forall f :: 0 <= f < |s.used| ==> s.owners[f] <= REFCOUNT_MAX && (!s.used[f] ==> s.owners[f] == 0)
  }

  function FreeCount(used: seq<bool>): (n: nat)
    ensures n <= |used|
  {
    if used == [] then 0 else FreeCount(used[..|used| - 1]) + if used[|used| - 1] then 0 else 1
  }

  lemma {:induction false} FreeCountAfter(used: seq<bool>, f: nat, b: bool)
    requires f < |used|
    ensures FreeCount(used[f := b]) ==
      FreeCount(used) - (if used[f] then 0 else 1) + (if b then 0 else 1)
  {
    var n := |used| - 1;
    if f == n {
      assert used[f := b][..n] == used[..n];
    } else {
      FreeCountAfter(used[..n], f, b);
      assert used[f := b][..n] == used[..n][f := b];
    }
  }

  lemma {:induction false} NothingFree(used: seq<bool>)
    ensures FreeCount(used) == 0 <==> forall f :: 0 <= f < |used| ==> used[f]
  {
    if used != [] {
      var n := |used| - 1;
      NothingFree(used[..n]);
      assert forall f :: 0 <= f < n ==> used[f] == used[..n][f];
    }
  }

  /** Frames `at` to `at + n - 1` are all free. */
  predicate FreeRun(used: seq<bool>, at: nat, n: nat) {
    at + n <= |used| && forall f :: at <= f < at + n ==> !used[f]
  }

  function Fill<T>(s: seq<T>, at: nat, n: nat, v: T): (r: seq<T>)
    requires at + n <= |s|
    ensures |r| == |s|
    ensures forall f :: 0 <= f < |s| ==> r[f] == if at <= f < at + n then v else s[f]
  {
    s[..at] + seq(n, i => v) + s[at + n..]
  }

  lemma {:induction false} FreeCountOfRun(used: seq<bool>, at: nat, n: nat)
    requires FreeRun(used, at, n)
    ensures n <= FreeCount(used) && FreeCount(Fill(used, at, n, true)) == FreeCount(used) - n
  {
    if n == 0 {
      assert Fill(used, at, 0, true) == used;
    } else {
      FreeCountOfRun(used, at, n - 1);
      var before := Fill(used, at, n - 1, true);
      FreeCountAfter(before, at + n - 1, true);
      assert Fill(used, at, n, true) == before[at + n - 1 := true];
    }
  }

  /** What an allocation of `n` frames at `at` makes of the state. */
  function Taken(s: Frames, at: nat, n: nat): Frames
    requires at + n <= |s.used| == |s.owners|
  {
    Frames(Fill(s.used, at, n, true), Fill(s.owners, at, n, 1))
  }

  function Released(s: Frames, at: nat, n: nat): Frames
    requires at + n <= |s.used| == |s.owners|
  {
    Frames(Fill(s.used, at, n, false), Fill(s.owners, at, n, 0))
  }

  /** The first free frame in cyclic order from `hint`. */
  ghost predicate FirstFreeFrom(used: seq<bool>, hint: nat, f: nat) {
    && f < |used| && !used[f]
    && exists k: nat :: k < |used| && f == Around(hint, k, |used|)
         && forall j: nat :: j < k ==> used[Around(hint, j, |used|)]
  }

  function Around(hint: nat, k: nat, n: nat): (f: nat)
    requires n > 0
    ensures f < n
  {
    (hint + k) % n
  }

  /** Going once around visits every frame. */
  lemma EveryFrameIsVisited(hint: nat, n: nat, f: nat) returns (k: nat)
    requires f < n && hint < n
    ensures k < n && Around(hint, k, n) == f
  {
    if hint <= f {
      k := f - hint;
      assert (hint + k) % n == f by { SmallMod(f, n); }
    } else {
      k := f + n - hint;
      assert hint + k == f + n;
      SmallMod(f, n);
    }
  }

  lemma SmallMod(f: nat, n: nat)
    requires f < n
    ensures f % n == f && (f + n) % n == f
  {
  }

  // ---- reference counts ------------------------------------------------------------------------

  function AddOwner(s: Frames, f: nat): Frames
    requires f < |s.owners|
  {
    if s.owners[f] == REFCOUNT_MAX then s else s.(owners := s.owners[f := s.owners[f] + 1])
  }

  function DropOwner(s: Frames, f: nat): Frames
    requires f < |s.owners| == |s.used|
  {
    if s.owners[f] == 0 then s
    else s.(owners := s.owners[f := s.owners[f] - 1],
            used := if s.owners[f] == 1 then s.used[f := false] else s.used)
  }

  /** Adding an owner keeps bitmap and counts consistent exactly when the frame is in use. */
  lemma AddOwnerIsSafeExactlyWhenHeld(s: Frames, f: nat)
    requires Consistent(s) && f < |s.used|
    ensures Consistent(AddOwner(s, f)) <==> s.used[f]
  {
    var t := AddOwner(s, f);
    if !s.used[f] {
      assert t.owners[f] == 1 && !t.used[f];
    }
  }

  /** A frame with `k` owners is freed by the last of `k` drops and by none before it. */
  lemma {:induction false} FreedAtLastDrop(s: Frames, f: nat, n: nat)
    requires Consistent(s) && f < |s.used| && s.used[f] && 0 < n <= s.owners[f]
    ensures var t := Drops(s, f, n);
      && t.owners == s.owners[f := s.owners[f] - n]
      && t.used == if n == s.owners[f] then s.used[f := false] else s.used
  {
    if n > 1 {
      FreedAtLastDrop(s, f, n - 1);
    }
  }

  function Drops(s: Frames, f: nat, n: nat): (t: Frames)
    requires f < |s.owners| == |s.used|
    ensures |t.owners| == |s.owners| && |t.used| == |s.used|
  {
    if n == 0 then s else DropOwner(Drops(s, f, n - 1), f)
  }

  /** The count saturates: a frame shared more than 255 times is freed while it still has
      owners, and no smaller number of shares does that. */
  lemma SharingLimit(s: Frames, f: nat, shares: nat)
    requires Consistent(s) && f < |s.used| && s.used[f] && s.owners[f] == 1
    ensures var t := Drops(Adds(s, f, shares), f, shares); t.used[f] <==> 1 + shares <= 255
  {
    AddsUpTo(s, f, shares);
    var t := Adds(s, f, shares);
    var n := t.owners[f];
    if shares > 0 && shares <= n {
      FreedAtLastDrop(t, f, shares);
    } else if shares > n {
      FreedAtLastDrop(t, f, n);
      DropsOfNothing(t, f, n, shares);
    }
  }

  function Adds(s: Frames, f: nat, n: nat): (t: Frames)
    requires f < |s.owners| == |s.used|
    ensures |t.owners| == |s.owners| && |t.used| == |s.used|
  {
    if n == 0 then s else AddOwner(Adds(s, f, n - 1), f)
  }

  lemma {:induction false} AddsUpTo(s: Frames, f: nat, n: nat)
    requires Consistent(s) && f < |s.used| && s.used[f] && s.owners[f] == 1
    ensures var t := Adds(s, f, n);
      && Consistent(t) && t.used == s.used
      && t.owners[f] == if 1 + n <= REFCOUNT_MAX then 1 + n else REFCOUNT_MAX
  {
    if n > 0 {
      AddsUpTo(s, f, n - 1);
    }
  }

  lemma {:induction false} DropsOfNothing(s: Frames, f: nat, m: nat, n: nat)
    requires f < |s.owners| == |s.used| && m <= n && Drops(s, f, m).owners[f] == 0
    ensures Drops(s, f, n) == Drops(s, f, m)
  {
    if m < n {
      DropsOfNothing(s, f, m, n - 1);
    }
  }

  /** Freeing what an allocation took puts everything back. */
  lemma TakeThenRelease(s: Frames, at: nat, n: nat)
    requires Consistent(s) && FreeRun(s.used, at, n)
    ensures Released(Taken(s, at, n), at, n) == s
    ensures Consistent(Taken(s, at, n))
  {
    assert Released(Taken(s, at, n), at, n).used == s.used;
    assert Released(Taken(s, at, n), at, n).owners == s.owners;
  }

  // ---- frame numbers -------------------------------------------------------------------------

  /** Frame numbers are 32 bits wide, so they reach this far. */
  const FRAME_NUMBERS: nat := 0x1_0000_0000
  const ADDRESS_END: nat := 0x1000_0000_0000

  function FrameOf(addr: nat): (f: nat)
    ensures f < FRAME_NUMBERS
  {
    addr / FRAME_SIZE % FRAME_NUMBERS
  }

  /** Beyond it an address is taken for one of another frame. */
  lemma FrameOfIsExact(addr: nat)
    ensures FrameOf(addr) == addr / FRAME_SIZE <==> addr < ADDRESS_END
  {
    var f := addr / FRAME_SIZE;
    assert f < FRAME_NUMBERS <==> addr < ADDRESS_END;
  }

  /** Addresses wrap at 64 bits. */
  const ADDRESS_SPACE: nat := 0x1_0000_0000_0000_0000

  function Sum(a: nat, b: nat): nat {
    (a + b) % ADDRESS_SPACE
  }

  /** That a sum wraps does not show in a frame number. */
  lemma FrameOfSum(a: nat, b: nat)
    ensures FrameOf(Sum(a, b)) == FrameOf(a + b)
  {
    PageOfWord(a + b);
    LowOfPage((a + b) / FRAME_SIZE);
  }

  lemma SumOfSum(a: nat, b: nat, c: nat)
    ensures Sum(Sum(a, b), c) == Sum(a + b, c)
  {
    var k := (a + b) / ADDRESS_SPACE;
    assert a + b + c == ADDRESS_SPACE * k + (Sum(a, b) + c);
  }

  /** The address of a frame the map describes, by its number. */
  predicate Managed(s: Frames, addr: nat) {
    addr != INVALID && addr % FRAME_SIZE == 0 && FrameOf(addr) < |s.used|
  }

  /** Frees the frame at an address, unless it is none, free already or shared. */
  function Freed(s: Frames, addr: nat): (t: Frames)
    requires |s.used| == |s.owners|
    ensures |t.used| == |t.owners| == |s.used|
  {
    var f := FrameOf(addr);
    if Managed(s, addr) && s.used[f] && s.owners[f] <= 1 then Released(s, f, 1) else s
  }

  function FreedMany(s: Frames, base: nat, count: nat): (t: Frames)
    requires |s.used| == |s.owners|
    ensures |t.used| == |t.owners| == |s.used|
  {
    if count == 0 then s else Freed(FreedMany(s, base, count - 1), base + (count - 1) * FRAME_SIZE)
  }

  /** Freeing an allocation by address, frame after frame, undoes it. */
  lemma FreeingUndoesAllocation(s: Frames, at: nat, n: nat)
    requires Consistent(s) && FreeRun(s.used, at, n) && at > 0 && |s.used| <= FRAME_NUMBERS
    ensures FreedMany(Taken(s, at, n), at * FRAME_SIZE, n) == s
  {
    FreedSoFar(Taken(s, at, n), at, n, n);
    TakeThenRelease(s, at, n);
  }

  lemma {:induction false} FreedSoFar(s: Frames, at: nat, n: nat, k: nat)
    requires |s.used| == |s.owners| <= FRAME_NUMBERS && 0 < at && at + n <= |s.used| && k <= n
    requires forall f :: at <= f < at + n ==> s.used[f] && s.owners[f] == 1
    ensures FreedMany(s, at * FRAME_SIZE, k) == Released(s, at, k)
  {
    hide Freed, Released, Fill;
    if k == 0 {
      ReleasedNothing(s, at);
    } else {
      FreedSoFar(s, at, n, k - 1);
      FreedNext(s, at, k - 1);
      assert at * FRAME_SIZE + (k - 1) * FRAME_SIZE == (at + k - 1) * FRAME_SIZE;
    }
  }

  lemma ReleasedNothing(s: Frames, at: nat)
    requires at <= |s.used| == |s.owners|
    ensures Released(s, at, 0) == s
  {
    assert Released(s, at, 0).used == s.used && Released(s, at, 0).owners == s.owners;
  }

  lemma FreedNext(s: Frames, at: nat, k: nat)
    requires |s.used| == |s.owners| <= FRAME_NUMBERS && 0 < at && at + k < |s.used|
    requires s.used[at + k] && s.owners[at + k] == 1
    ensures Freed(Released(s, at, k), (at + k) * FRAME_SIZE) == Released(s, at, k + 1)
  {
    var t := Released(s, at, k);
    FrameOfIsExact((at + k) * FRAME_SIZE);
    assert Released(t, at + k, 1).used == Released(s, at, k + 1).used;
    assert Released(t, at + k, 1).owners == Released(s, at, k + 1).owners;
  }

  // ---- address ranges ------------------------------------------------------------------------

  datatype Range = Range(base: nat, size: nat)

  predicate Addressable(r: Range) {
    r.base + r.size + FRAME_SIZE <= ADDRESS_END
  }

  /** Some byte of frame `f` is in the range. */
  predicate Overlaps(f: nat, r: Range) {
    f * FRAME_SIZE < r.base + r.size && r.base < (f + 1) * FRAME_SIZE && r.size > 0
  }

  /** All of frame `f` is in the range. */
  predicate Contained(f: nat, r: Range) {
    r.base <= f * FRAME_SIZE && (f + 1) * FRAME_SIZE <= r.base + r.size
  }

  /** The frames counted from the range's start rounded down to its end rounded up. */
  predicate Touches(f: nat, r: Range) {
    r.size > 0 && FrameOf(r.base) <= f < FrameOf(r.base + r.size + FRAME_SIZE - 1)
  }

  /** The frames counted from the range's start rounded up to its end rounded down. */
  predicate Inside(f: nat, r: Range) {
    r.size > 0 && FrameOf(r.base + FRAME_SIZE - 1) <= f < FrameOf(r.base + r.size)
  }

  function Reserved(s: Frames, r: Range): (t: Frames)
    requires |s.used| == |s.owners|
    ensures |t.used| == |s.used| && t.owners == s.owners
    ensures forall f :: 0 <= f < |s.used| ==> (t.used[f] <==> s.used[f] || Touches(f, r))
  {
    s.(used := seq(|s.used|, f requires 0 <= f < |s.used| => s.used[f] || Touches(f, r)))
  }

  /** Only frames without an owner are given back. */
  function Unreserved(s: Frames, r: Range): (t: Frames)
    requires |s.used| == |s.owners|
    ensures |t.used| == |s.used| && t.owners == s.owners
    ensures forall f :: 0 <= f < |s.used| ==> (t.used[f] <==> s.used[f] && !(Inside(f, r) && s.owners[f] == 0))
  {
    s.(used := seq(|s.used|, f requires 0 <= f < |s.used| => s.used[f] && !(Inside(f, r) && s.owners[f] == 0)))
  }

  /** Rounding outward counts exactly the frames the range overlaps, rounding inward those it
      contains, as long as frame numbers reach. */
  lemma RangesRound(r: Range, f: nat)
    requires Addressable(r)
    ensures Touches(f, r) <==> Overlaps(f, r)
    ensures Inside(f, r) <==> Contained(f, r)
  {
    FrameOfIsExact(r.base);
    FrameOfIsExact(r.base + r.size);
    FrameOfIsExact(r.base + FRAME_SIZE - 1);
    FrameOfIsExact(r.base + r.size + FRAME_SIZE - 1);
    RoundsDown(r.base, f + 1);
    RoundsDown(r.base + FRAME_SIZE - 1, f + 1);
    RoundsDown(r.base + r.size, f + 1);
    RoundsDown(r.base + r.size + FRAME_SIZE - 1, f + 1);
  }

  /** Beyond, a reservation misses the last frame it should take. */
  lemma ReservationsReachExactly(r: Range)
    requires r.size > 0
    ensures (forall f: nat :: Touches(f, r) <==> Overlaps(f, r)) <==> Addressable(r)
  {
    if Addressable(r) {
      forall f: nat ensures Touches(f, r) <==> Overlaps(f, r) {
        RangesRound(r, f);
      }
    } else {
      var last := (r.base + r.size - 1) / FRAME_SIZE;
      assert Overlaps(last, r);
      assert last + 1 >= FRAME_NUMBERS;
      assert !Touches(last, r);
    }
  }

  lemma RoundsDown(addr: nat, n: nat)
    ensures addr / FRAME_SIZE < n <==> addr < n * FRAME_SIZE
  {
  }
}
