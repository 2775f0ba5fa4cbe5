/** Whole runs of a capability table: the links stay a forest exactly when deletes hit
    leaves, authority only shrinks, and dead handles stay dead. */
module CapabilityRuns {
  import opened Capabilities
  import opened CapabilityRevocations
  import opened CapabilityTables

  // ---- one operation and the forest ------------------------------------------------------------

  lemma FillKeepsRanks(s: Slots, rank: seq<nat>, i: nat, target: Object, rights: Rights, parent: nat)
    requires Ranked(s, rank) && i < MAX_SLOTS && !s[i].used
    requires parent == NO_PARENT || (parent < MAX_SLOTS && s[parent].used)
    ensures var r := if parent == NO_PARENT then rank else rank[i := rank[parent] + 1];
      Ranked(Fill(s, i, target, rights, parent), r)
  {
  }

  lemma InsertKeepsForest(s: Slots, target: Object, rights: Rights)
    requires Forest(s)
    ensures Forest(Insert(s, target, rights).slots)
  {
    hide FirstFree;
    var rank :| Ranked(s, rank);
    var i := FirstFree(s, 1);
    if target.kind != NoObject && i < MAX_SLOTS {
      FillKeepsRanks(s, rank, i, target, rights, NO_PARENT);
    }
  }

  lemma DeriveKeepsForest(s: Slots, cap: nat, rights: Rights)
    requires Forest(s)
    ensures Forest(Derive(s, cap, rights).slots)
  {
    hide FirstFree, Subset, Ranked;
    var rank :| Ranked(s, rank);
    if Resolves(s, cap) {
      var i, p := FirstFree(s, 1), HandleIndex(cap);
      if i < MAX_SLOTS {
        FillKeepsRanks(s, rank, i, s[p].target, rights, p);
        FillKeepsRanks(s, rank, i, s[p].target, rights, NO_PARENT);
      }
    }
  }

  lemma RevokeKeepsForest(s: Slots, cap: nat)
    requires Forest(s)
    ensures Forest(Revoke(s, cap).slots)
  {
    hide Descendants;
    var rank :| Ranked(s, rank);
    if Resolves(s, cap) {
      ClosedUnder(s, HandleIndex(cap));
      RankedAfterClear(s, rank, Descendants(s, HandleIndex(cap)) + {HandleIndex(cap)});
    }
  }

  predicate Leaf(s: Slots, i: nat) {
    forall j :: 0 <= j < MAX_SLOTS ==> !ChildOf(s, j, i)
  }

  /** Deleting a capability keeps the links a forest exactly when nothing live was derived
      from it. */
  lemma DeleteKeepsForestExactly(s: Slots, cap: nat)
    requires Forest(s) && Resolves(s, cap)
    ensures Forest(Delete(s, cap).slots) <==> Leaf(s, HandleIndex(cap))
  {
    var i := HandleIndex(cap);
    var t := Clear(s, {i});
    var rank :| Ranked(s, rank);
    if Leaf(s, i) {
      RankedAfterClear(s, rank, {i});
    } else {
      var j :| 0 <= j < MAX_SLOTS && ChildOf(s, j, i);
      assert j != i;
      assert t[j] == s[j] && !t[i].used;
    }
  }

  /** Derive B from A, delete A, derive from B into A's old slot: the two capabilities now
      name each other as parent, so the links are no forest and the chain from either never
      ends. */
  lemma DeleteThenDeriveMakesACycle(target: Object, rights: Rights)
    requires target.kind != NoObject
    ensures var a := Insert(EmptyTable(), target, rights);
      var b := Derive(a.slots, a.cap, rights);
      var d := Delete(b.slots, a.cap);
      var c := Derive(d.slots, b.cap, rights);
      && b.status == AF_OK && d.status == AF_OK && c.status == AF_OK
      && HandleIndex(c.cap) == HandleIndex(a.cap)
      && ChildOf(c.slots, HandleIndex(c.cap), HandleIndex(b.cap))
      && ChildOf(c.slots, HandleIndex(b.cap), HandleIndex(c.cap))
      && !Forest(c.slots)
      && forall n: nat :: Up(c.slots, HandleIndex(c.cap), 2 * n) == HandleIndex(c.cap)
  {
    hide FirstFree, Forest, HasRight, MayRevoke;
    SubsetSelf(rights);
    hide Subset;
    var e := EmptyTable();
    FirstFreeStep(e, 1);
    var a := Insert(e, target, rights);
    FirstFreeStep(a.slots, 1);
    FirstFreeStep(a.slots, 2);
    var b := Derive(a.slots, a.cap, rights);
    var d := Delete(b.slots, a.cap);
    FirstFreeStep(d.slots, 1);
    var c := Derive(d.slots, b.cap, rights);
    CycleIsNoForest(c.slots, 1, 2);
    forall n: nat
      ensures Up(c.slots, 1, 2 * n) == 1
    {
      CycleNeverEnds(c.slots, 1, 2, n);
    }
  }

  /** Then revoking what was derived from the new capability never ends. */
  lemma RevokingTheCycleNeverEnds(target: Object, rights: Rights)
    requires target.kind != NoObject
    ensures var a := Insert(EmptyTable(), target, rights);
      var b := Derive(a.slots, a.cap, rights);
      var d := Delete(b.slots, a.cap);
      var c := Derive(d.slots, b.cap, rights);
      c.status == AF_OK && !Ends(c.slots, HandleIndex(c.cap))
  {
    DeleteThenDeriveMakesACycle(target, rights);
    var a := Insert(EmptyTable(), target, rights);
    var b := Derive(a.slots, a.cap, rights);
    var d := Delete(b.slots, a.cap);
    var c := Derive(d.slots, b.cap, rights);
    var i := HandleIndex(c.cap);
    assert Up(c.slots, i, 2 * 1) == i;
    assert !a.slots[0].used && !b.slots[0].used && !d.slots[0].used && !c.slots[0].used;
    hide Insert, Derive, Delete, Up, HandleIndex;
    assert Descends(c.slots, i, i);
    RevocationEndsExactly(c.slots, i);
  }

  lemma SubsetSelf(rights: Rights)
    ensures Subset(rights, rights)
  {
  }

  lemma CycleIsNoForest(s: Slots, i: nat, j: nat)
    requires ChildOf(s, i, j) && ChildOf(s, j, i)
    ensures !Forest(s)
  {
  }

  lemma {:induction false} CycleNeverEnds(s: Slots, i: nat, j: nat, n: nat)
    requires ChildOf(s, i, j) && ChildOf(s, j, i)
    ensures Up(s, i, 2 * n) == i
  {
    if n > 0 {
      CycleNeverEnds(s, i, j, n - 1);
      assert Up(s, i, 2 * n) == Up(s, j, 2 * n - 1) == Up(s, i, 2 * n - 2);
    }
  }

  // ---- runs -----------------------------------------------------------------------------------

  datatype Op =
    | OpInsert(target: Object, rights: Rights)
    | OpDerive(cap: nat, rights: Rights)
    | OpDelete(cap: nat)
    | OpRevoke(cap: nat)

  /** What a `cap_insert` handed out. */
  datatype Grant = Grant(target: Object, rights: Rights)

  /** The table, and for each live slot the grant at the root of its derivation. */
  datatype World = World(slots: Slots, origin: map<nat, Grant>)

  function Start(): World {
    World(EmptyTable(), map[])
  }

  ghost function Answered(w: World, op: Op): Answer {
    match op
    case OpInsert(target, rights) => Insert(w.slots, target, rights)
    case OpDerive(cap, rights) => Derive(w.slots, cap, rights)
    case OpDelete(cap) => Delete(w.slots, cap)
    case OpRevoke(cap) => Revoke(w.slots, cap)
  }

  ghost function Step(w: World, op: Op): World {
    var a := Answered(w, op);
    var origin :=
      if a.status != AF_OK then w.origin
      else match op
        case OpInsert(target, rights) => w.origin[FirstFree(w.slots, 1) := Grant(target, rights)]
        case OpDerive(cap, _) =>
          if HandleIndex(cap) in w.origin then w.origin[FirstFree(w.slots, 1) := w.origin[HandleIndex(cap)]]
          else w.origin
        case OpDelete(cap) => w.origin - {HandleIndex(cap)}
        case OpRevoke(cap) => w.origin - (Descendants(w.slots, HandleIndex(cap)) + {HandleIndex(cap)});
    World(a.slots, origin)
  }

  ghost function Run(w: World, ops: seq<Op>): World
    decreases |ops|
  {
    if ops == [] then w else Step(Run(w, ops[..|ops| - 1]), ops[|ops| - 1])
  }

  // ---- authority --------------------------------------------------------------------------------

  /** Every live capability names its grant's object and carries no more than its rights. */
  ghost predicate Authorised(w: World, grants: seq<Op>) {
    forall i :: 0 <= i < MAX_SLOTS && w.slots[i].used ==>
      && i in w.origin
      && OpInsert(w.origin[i].target, w.origin[i].rights) in grants
      && w.slots[i].target == w.origin[i].target
      && Subset(w.slots[i].rights, w.origin[i].rights)
  }

  lemma SubsetTransitive(a: Rights, b: Rights, c: Rights)
    requires Subset(a, b) && Subset(b, c)
    ensures Subset(a, c)
  {
  }

  lemma StepKeepsAuthority(w: World, op: Op, grants: seq<Op>)
    requires Authorised(w, grants)
    ensures Authorised(Step(w, op), grants + [op])
  {
    hide Subset, FirstFree, Descendants;
    var v := Step(w, op);
    forall i | 0 <= i < MAX_SLOTS && v.slots[i].used
      ensures i in v.origin && OpInsert(v.origin[i].target, v.origin[i].rights) in grants + [op]
      ensures v.slots[i].target == v.origin[i].target && Subset(v.slots[i].rights, v.origin[i].rights)
    {
      match op
      case OpInsert(target, rights) => SubsetSelf(rights);
      case OpDerive(cap, rights) =>
        if Answered(w, op).status == AF_OK && i == FirstFree(w.slots, 1) {
          var p := HandleIndex(cap);
          SubsetTransitive(rights, w.slots[p].rights, w.origin[p].rights);
        }
      case OpDelete(_) =>
      case OpRevoke(_) =>
    }
  }

  /** Over any run, whatever it deletes, authority traces back to a `cap_insert` of the run
      and never exceeds it. */
  lemma {:induction false} AuthorityOnlyShrinks(ops: seq<Op>)
    ensures Authorised(Run(Start(), ops), ops)
    decreases |ops|
  {
    if ops != [] {
      hide Step, Authorised;
      var last := |ops| - 1;
      AuthorityOnlyShrinks(ops[..last]);
      StepKeepsAuthority(Run(Start(), ops[..last]), ops[last], ops[..last]);
      assert ops[..last] + [ops[last]] == ops;
    }
  }

  // ---- the forest over runs -----------------------------------------------------------------------

  /** Every delete of the run names a capability nothing live was derived from. */
  ghost predicate DeletesLeaves(w: World, ops: seq<Op>)
    decreases |ops|
  {
    ops != [] ==>
      var last := |ops| - 1;
      && DeletesLeaves(w, ops[..last])
      && (ops[last].OpDelete? ==>
            var s := Run(w, ops[..last]).slots;
            Resolves(s, ops[last].cap) ==> Leaf(s, HandleIndex(ops[last].cap)))
  }

  /** A recorded parent covers its child: same object, no fewer rights. */
  predicate LinksShrink(s: Slots) {
    forall i, p :: 0 <= i < MAX_SLOTS && 0 <= p < MAX_SLOTS && ChildOf(s, i, p) ==>
      s[i].target == s[p].target && Subset(s[i].rights, s[p].rights)
  }

  lemma FillKeepsLinks(s: Slots, i: nat, target: Object, rights: Rights, parent: nat)
    requires Forest(s) && LinksShrink(s) && i < MAX_SLOTS && !s[i].used
    requires parent == NO_PARENT ||
      (parent < MAX_SLOTS && s[parent].used && s[parent].target == target && Subset(rights, s[parent].rights))
    ensures LinksShrink(Fill(s, i, target, rights, parent))
  {
    hide Subset;
    var rank :| Ranked(s, rank);
    var t := Fill(s, i, target, rights, parent);
    forall j, p | 0 <= j < MAX_SLOTS && 0 <= p < MAX_SLOTS && ChildOf(t, j, p)
      ensures t[j].target == t[p].target && Subset(t[j].rights, t[p].rights)
    {
      if j != i {
        assert ChildOf(s, j, p);
      }
    }
  }

  lemma ClearKeepsLinks(s: Slots, g: set<nat>)
    requires LinksShrink(s) && Closed(s, g)
    ensures LinksShrink(Clear(s, g))
  {
    hide Subset;
    var t := Clear(s, g);
    forall j, p | 0 <= j < MAX_SLOTS && 0 <= p < MAX_SLOTS && ChildOf(t, j, p)
      ensures t[j].target == t[p].target && Subset(t[j].rights, t[p].rights)
    {
      assert ChildOf(s, j, p);
    }
  }

  lemma StepKeepsForest(w: World, op: Op)
    requires Forest(w.slots) && LinksShrink(w.slots)
    requires op.OpDelete? && Resolves(w.slots, op.cap) ==> Leaf(w.slots, HandleIndex(op.cap))
    ensures Forest(Step(w, op).slots) && LinksShrink(Step(w, op).slots)
  {
    hide FirstFree, Forest, LinksShrink, Subset, Descendants, Closed, Clear;
    var s := w.slots;
    match op
    case OpInsert(target, rights) =>
      InsertKeepsForest(s, target, rights);
      if target.kind != NoObject && FirstFree(s, 1) < MAX_SLOTS {
        FillKeepsLinks(s, FirstFree(s, 1), target, rights, NO_PARENT);
      }
    case OpDerive(cap, rights) =>
      DeriveKeepsForest(s, cap, rights);
      if Resolves(s, cap) && FirstFree(s, 1) < MAX_SLOTS && Subset(rights, s[HandleIndex(cap)].rights) {
        FillKeepsLinks(s, FirstFree(s, 1), s[HandleIndex(cap)].target, rights, HandleIndex(cap));
        FillKeepsLinks(s, FirstFree(s, 1), s[HandleIndex(cap)].target, rights, NO_PARENT);
      }
    case OpDelete(cap) =>
      if Resolves(s, cap) {
        DeleteKeepsForestExactly(s, cap);
        LeafIsClosed(s, HandleIndex(cap));
        ClearKeepsLinks(s, {HandleIndex(cap)});
      }
    case OpRevoke(cap) =>
      RevokeKeepsForest(s, cap);
      if Resolves(s, cap) {
        ClosedUnder(s, HandleIndex(cap));
        ClearKeepsLinks(s, Descendants(s, HandleIndex(cap)) + {HandleIndex(cap)});
      }
  }

  lemma LeafIsClosed(s: Slots, i: nat)
    requires Leaf(s, i)
    ensures Closed(s, {i})
  {
  }

  /** In a run that deletes only leaves the links are a forest throughout, and rights shrink
      along every link, so every revocation terminates and reaches all descendants. */
  lemma {:induction false} RunsKeepForest(ops: seq<Op>)
    requires DeletesLeaves(Start(), ops)
    ensures var s := Run(Start(), ops).slots; Forest(s) && LinksShrink(s)
    decreases |ops|
  {
    if ops == [] {
      assert Ranked(EmptyTable(), seq(MAX_SLOTS, i => 0));
    } else {
      hide Step, Forest, LinksShrink, Leaf;
      RunsKeepForest(ops[..|ops| - 1]);
      StepKeepsForest(Run(Start(), ops[..|ops| - 1]), ops[|ops| - 1]);
    }
  }

  // ---- dead handles ---------------------------------------------------------------------------------

  /** What one operation does to one slot: a live slot stays put or is freed, a dead one
      keeps its generation. */
  lemma SlotFate(w: World, op: Op, i: nat)
    requires i < MAX_SLOTS
    ensures var s := w.slots[i]; var t := Step(w, op).slots[i];
      if s.used then t == s || t == Freed(s) else t.generation == s.generation
  {
    hide FirstFree, Subset, Descendants, Resolves, Live, MayRevoke, Pack;
    match op
    case OpInsert(_, _) =>
    case OpDerive(_, _) =>
    case OpDelete(cap) => DeleteFate(w.slots, cap, i);
    case OpRevoke(cap) => RevokeFate(w.slots, cap, i);
  }

  lemma DeleteFate(s: Slots, cap: nat, i: nat)
    requires i < MAX_SLOTS
    ensures Delete(s, cap).slots[i] == s[i] || (s[i].used && Delete(s, cap).slots[i] == Freed(s[i]))
  {
  }

  lemma RevokeFate(s: Slots, cap: nat, i: nat)
    requires i < MAX_SLOTS
    ensures Revoke(s, cap).slots[i] == s[i] || (s[i].used && Revoke(s, cap).slots[i] == Freed(s[i]))
  {
    hide Up, MayRevoke;
  }

  /** One operation raises a slot's generation by at most one and never lowers it, short of
      the point where the 32-bit counter wraps. */
  lemma StepGeneration(w: World, op: Op, i: nat)
    requires i < MAX_SLOTS && w.slots[i].generation + 1 < GENERATIONS
    ensures w.slots[i].generation <= Step(w, op).slots[i].generation <= w.slots[i].generation + 1
  {
    hide Step;
    SlotFate(w, op, i);
  }

  lemma {:induction false} RunGeneration(w: World, ops: seq<Op>, i: nat)
    requires i < MAX_SLOTS && w.slots[i].generation + |ops| < GENERATIONS
    ensures w.slots[i].generation <= Run(w, ops).slots[i].generation <= w.slots[i].generation + |ops|
    decreases |ops|
  {
    if ops != [] {
      hide Step;
      RunGeneration(w, ops[..|ops| - 1], i);
      StepGeneration(Run(w, ops[..|ops| - 1]), ops[|ops| - 1], i);
    }
  }

  /** After runs short of 2^24 operations every revocation ends and frees all that was derived. */
  lemma RunsAreRevocable(ops: seq<Op>)
    requires DeletesLeaves(Start(), ops) && |ops| + 1 < HANDLE_GENERATIONS
    ensures var s := Run(Start(), ops).slots;
      Revocable(s) && forall p :: 0 <= p < MAX_SLOTS ==> !Descends(s, p, p) && Handled(s, Descendants(s, p))
  {
    RunsKeepForest(ops);
    var rank :| Ranked(Run(Start(), ops).slots, rank);
    forall p | 0 <= p < MAX_SLOTS
      ensures !Descends(Run(Start(), ops).slots, p, p)
    {
      NotOwnDescendant(Run(Start(), ops).slots, rank, p);
    }
    hide Run, DeletesLeaves, LinksShrink;
    forall i | 0 <= i < MAX_SLOTS
      ensures Run(Start(), ops).slots[i].generation < HANDLE_GENERATIONS
    {
      RunGeneration(Start(), ops, i);
    }
  }

  /** The operation that makes a handle stop resolving moved its slot to a later
      generation. */
  lemma DyingMovesGeneration(w: World, op: Op, cap: nat)
    requires Resolves(w.slots, cap) && !Resolves(Step(w, op).slots, cap)
    requires HandleGeneration(cap) < HANDLE_GENERATIONS
    ensures Step(w, op).slots[HandleIndex(cap)].generation == HandleGeneration(cap) + 1
  {
    hide Step;
    SlotFate(w, op, HandleIndex(cap));
  }

  /** Once a handle stops resolving it never resolves again, for as many further operations
      as the 32-bit generation counter can tell apart. */
  lemma DeadHandlesStayDead(w: World, op: Op, cap: nat, ops: seq<Op>)
    requires cap < 0x1_0000_0000 && Resolves(w.slots, cap) && !Resolves(Step(w, op).slots, cap)
    requires |ops| < GENERATIONS - HANDLE_GENERATIONS
    ensures !Resolves(Run(Step(w, op), ops).slots, cap)
  {
    hide Step;
    DyingMovesGeneration(w, op, cap);
    RunGeneration(Step(w, op), ops, HandleIndex(cap));
  }

  /** Every slot an accepted revocation names loses its handle. */
  lemma RevokedHandlesDie(w: World, cap: nat, victim: nat)
    requires Answered(w, OpRevoke(cap)).status == AF_OK
    requires Resolves(w.slots, victim)
    ensures Resolves(Step(w, OpRevoke(cap)).slots, victim) <==>
      !(victim == cap || Descends(w.slots, HandleIndex(victim), HandleIndex(cap)))
  {
    hide Descends;
  }
}
