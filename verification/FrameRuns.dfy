/** Runs of the physical memory manager against books kept by its callers: who holds how many
    references to which frame, and which frames are set aside. */
module FrameRuns {
  import opened Frames

  /** `held[f]` references to frame `f` are out; `aside[f]` when it is not to be given out. */
  datatype Books = Books(held: seq<nat>, aside: seq<bool>)

  datatype Op =
    | Grant(at: nat, n: nat)
    | Share(f: nat)
    | Drop(f: nat)
    | Free(f: nat)
    | SetAside(range: Range)
    | GiveBack(range: Range)

  predicate Sized(s: Frames, b: Books) {
    |s.used| == |s.owners| == |b.held| == |b.aside| <= FRAME_NUMBERS
  }

  /** The bitmap and the counts say what the books say. */
  ghost predicate Refines(s: Frames, b: Books) {
    && Sized(s, b) && s.owners == b.held
    && (forall f :: 0 <= f < |s.used| ==> b.held[f] <= REFCOUNT_MAX)
    && (forall f :: 0 <= f < |s.used| ==> (s.used[f] <==> b.held[f] > 0 || b.aside[f]))
    && (forall f :: 0 <= f < |s.used| ==> !(b.held[f] > 0 && b.aside[f]))
  }

  /** The manager grants what is free; callers share, drop and free only what they hold, with
      one reference when they free it outright and 255 at the most. */
  ghost predicate Allowed(s: Frames, b: Books, op: Op)
    requires Sized(s, b)
  {
    match op
    case Grant(at, n) => FreeRun(s.used, at, n)
    case Share(f) => f < |b.held| && 0 < b.held[f] < REFCOUNT_MAX
    case Drop(f) => f < |b.held| && 0 < b.held[f]
    case Free(f) => 0 < f < |b.held| && b.held[f] == 1
    case SetAside(_) => true
    case GiveBack(_) => true
  }

  function Step(s: Frames, op: Op): (t: Frames)
    requires |s.used| == |s.owners|
  {
    match op
    case Grant(at, n) => if at + n <= |s.used| then Taken(s, at, n) else s
    case Share(f) => if f < |s.used| then AddOwner(s, f) else s
    case Drop(f) => if f < |s.used| then DropOwner(s, f) else s
    case Free(f) => Freed(s, f * FRAME_SIZE)
    case SetAside(r) => Reserved(s, r)
    case GiveBack(r) => Unreserved(s, r)
  }

  /** What the callers write down, without a look at the bitmap. */
  function Booked(b: Books, op: Op): (c: Books)
    requires |b.held| == |b.aside|
    ensures |c.held| == |c.aside| == |b.held|
  {
    match op
    case Grant(at, n) => if at + n <= |b.held| then b.(held := Fill(b.held, at, n, 1)) else b
    case Share(f) => if f < |b.held| then b.(held := b.held[f := b.held[f] + 1]) else b
    case Drop(f) => if f < |b.held| && b.held[f] > 0 then b.(held := b.held[f := b.held[f] - 1]) else b
    case Free(f) => if f < |b.held| then b.(held := b.held[f := 0]) else b
    case SetAside(r) =>
      b.(aside := seq(|b.held|, f requires 0 <= f < |b.held| => b.aside[f] || (Touches(f, r) && b.held[f] == 0)))
    case GiveBack(r) =>
      b.(aside := seq(|b.held|, f requires 0 <= f < |b.held| => b.aside[f] && !Inside(f, r)))
  }

  lemma StepRefines(s: Frames, b: Books, op: Op)
    requires Refines(s, b) && Allowed(s, b, op)
    ensures Refines(Step(s, op), Booked(b, op))
  {
    hide Refines, Allowed, Booked;
    match op
    case Grant(at, n) => GrantRefines(s, b, at, n);
    case Share(f) => ShareRefines(s, b, f);
    case Drop(f) => DropRefines(s, b, f);
    case Free(f) => FreeRefines(s, b, f);
    case SetAside(r) => RangeRefines(s, b, r);
    case GiveBack(r) => RangeRefines(s, b, r);
  }

  lemma GrantRefines(s: Frames, b: Books, at: nat, n: nat)
    requires Refines(s, b) && Allowed(s, b, Grant(at, n))
    ensures Refines(Step(s, Grant(at, n)), Booked(b, Grant(at, n)))
  {
    assert Taken(s, at, n).owners == Booked(b, Grant(at, n)).held;
  }

  lemma ShareRefines(s: Frames, b: Books, f: nat)
    requires Refines(s, b) && Allowed(s, b, Share(f))
    ensures Refines(Step(s, Share(f)), Booked(b, Share(f)))
  {
    assert AddOwner(s, f).owners == Booked(b, Share(f)).held;
  }

  lemma DropRefines(s: Frames, b: Books, f: nat)
    requires Refines(s, b) && Allowed(s, b, Drop(f))
    ensures Refines(Step(s, Drop(f)), Booked(b, Drop(f)))
  {
    assert DropOwner(s, f).owners == Booked(b, Drop(f)).held;
  }

  lemma FreeRefines(s: Frames, b: Books, f: nat)
    requires Refines(s, b) && Allowed(s, b, Free(f))
    ensures Refines(Step(s, Free(f)), Booked(b, Free(f)))
  {
    FrameOfIsExact(f * FRAME_SIZE);
    assert Released(s, f, 1).owners == Booked(b, Free(f)).held;
  }

  lemma RangeRefines(s: Frames, b: Books, r: Range)
    requires Refines(s, b)
    ensures Refines(Step(s, SetAside(r)), Booked(b, SetAside(r)))
    ensures Refines(Step(s, GiveBack(r)), Booked(b, GiveBack(r)))
  {
    hide Touches, Inside;
  }

  /** Everything is set aside at first. */
  function Start(n: nat): (w: (Frames, Books)) {
    (Frames(seq(n, i => true), seq(n, i => 0)), Books(seq(n, i => 0), seq(n, i => true)))
  }

  ghost predicate Runs(n: nat, states: seq<(Frames, Books)>, ops: seq<Op>) {
    && |states| == |ops| + 1 && states[0] == Start(n) && n <= FRAME_NUMBERS
    && forall i :: 0 <= i < |ops| ==>
         && Sized(states[i].0, states[i].1) && Allowed(states[i].0, states[i].1, ops[i])
         && states[i + 1] == (Step(states[i].0, ops[i]), Booked(states[i].1, ops[i]))
  }

  lemma {:induction false} RunsRefine(n: nat, states: seq<(Frames, Books)>, ops: seq<Op>, i: nat)
    requires Runs(n, states, ops) && i < |states|
    ensures Refines(states[i].0, states[i].1) && |states[i].0.used| == n
  {
    if i > 0 {
      RunsRefine(n, states, ops, i - 1);
      StepRefines(states[i - 1].0, states[i - 1].1, ops[i - 1]);
    }
  }

  /** No frame that anyone holds or that is set aside is ever granted. */
  lemma GrantsAreNew(n: nat, states: seq<(Frames, Books)>, ops: seq<Op>, i: nat, f: nat)
    requires Runs(n, states, ops) && i < |ops| && ops[i].Grant? && ops[i].at <= f < ops[i].at + ops[i].n
    ensures f < n == |states[i].1.held| == |states[i].1.aside| && states[i].1.held[f] == 0 && !states[i].1.aside[f]
  {
    hide Refines;
    RunsRefine(n, states, ops, i);
    BooksDecide(states[i].0, states[i].1);
  }

  /** A frame is free exactly when nobody holds it and it is not set aside. */
  lemma BooksDecide(s: Frames, b: Books)
    requires Refines(s, b)
    ensures Sized(s, b) && Consistent(s)
    ensures forall f :: 0 <= f < |s.used| ==> (!s.used[f] <==> b.held[f] == 0 && !b.aside[f])
  {
  }

  /** Freeing outright a frame that has one owner or none leaves the books right exactly when
      it was not set aside: the manager takes a reserved frame for one to be freed. */
  lemma FreeIsSafeExactlyWhenNotAside(s: Frames, b: Books, f: nat)
    requires Refines(s, b) && 0 < f < |s.used| && s.owners[f] <= 1
    ensures Refines(Freed(s, f * FRAME_SIZE), Booked(b, Free(f))) <==> !b.aside[f]
  {
    FrameOfIsExact(f * FRAME_SIZE);
    var t, c := Freed(s, f * FRAME_SIZE), Booked(b, Free(f));
    if s.used[f] {
      assert t == Released(s, f, 1) && t.owners == c.held && !t.used[f];
    } else {
      assert t == s && c.held == b.held;
    }
  }

  /** Reserving a frame that is in use has no effect that outlasts its last owner. */
  lemma ReservationsOfHeldFramesLapse(s: Frames, b: Books, r: Range, f: nat)
    requires Refines(s, b) && f < |s.used| && Touches(f, r)
    ensures !Drops(Reserved(s, r), f, s.owners[f]).used[f] <==> b.held[f] > 0
  {
    var t := Reserved(s, r);
    BooksDecide(s, b);
    if s.owners[f] > 0 {
      FreedAtLastDrop(t, f, s.owners[f]);
    }
  }

  /** What freeing by address does, by what the books say: a frame with one holder becomes free, a
      shared one and one that is free already stay as they are, and so does everything when the
      address is none or not that of a frame. */
  lemma FreeAnswers(s: Frames, b: Books, addr: nat)
    requires Refines(s, b) && addr < 0x1000_0000_0000
    ensures |Freed(s, addr).used| == |s.used|
    ensures var f := addr / 4096; var t := Freed(s, addr);
      if addr > 0 && addr % 4096 == 0 && f < |s.used| && s.used[f] && b.held[f] <= 1
        then t == Frames(s.used[f := false], s.owners[f := 0])
        else t == s
  {
    FrameOfIsExact(addr);
    var f := addr / 4096;
    if Managed(s, addr) && s.used[f] && s.owners[f] <= 1 {
      assert Released(s, f, 1).used == s.used[f := false] && Released(s, f, 1).owners == s.owners[f := 0];
    }
  }

  /** One more holder up to 255; one fewer, and with the last the frame is free. */
  lemma ShareAndDropAnswer(s: Frames, b: Books, f: nat)
    requires Refines(s, b) && f < |s.used|
    ensures Sized(s, b)
    ensures AddOwner(s, f) == s.(owners := s.owners[f := if b.held[f] < 255 then b.held[f] + 1 else 255])
    ensures DropOwner(s, f).owners == s.owners[f := if b.held[f] > 0 then b.held[f] - 1 else 0]
    ensures DropOwner(s, f).used == if b.held[f] == 1 then s.used[f := false] else s.used
  {
    assert s.owners[f := s.owners[f]] == s.owners;
  }
}
