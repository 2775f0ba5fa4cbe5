/** Revocation as it recurses over the recorded parents: it ends exactly when the slot it starts
    from is on no cycle of links, and then it frees everything derived from that slot. */
module CapabilityRevocations {
  import opened Options
  import opened Capabilities

  // ---- the recursion ----------------------------------------------------------------------------

  /** The table after a pass, and how many slots it counted. */
  datatype Walked = Walked(slots: Slots, revoked: nat)

  /** The children of `p` from slot `i` on, each after its own children; None when that takes
      more than `depth` nested calls. */
  function Walk(s: Slots, p: nat, i: nat, depth: nat): Option<Walked>
    requires p < MAX_SLOTS && 1 <= i <= MAX_SLOTS
    decreases depth, MAX_SLOTS - i
  {
    if i == MAX_SLOTS then Some(Walked(s, 0))
    else if !ChildOf(s, i, p) then Walk(s, p, i + 1, depth)
    else if depth == 0 then None
    else match Walk(s, i, 1, depth - 1)
      case None => None
      case Some(w) =>
        match Walk(Delete(w.slots, Pack(i, w.slots[i].generation)).slots, p, i + 1, depth)
        case None => None
        case Some(v) => Some(Walked(v.slots, w.revoked + 1 + v.revoked))
  }

  ghost predicate Ends(s: Slots, p: nat)
    requires p < MAX_SLOTS
  {
    exists depth :: Walk(s, p, 1, depth).Some?
  }

  // ---- fewer links ------------------------------------------------------------------------------

  /** Slots are only freed. */
  predicate Shrinks(s: Slots, t: Slots) {
    forall j :: 0 <= j < MAX_SLOTS ==> t[j] == s[j] || !t[j].used
  }

  lemma ShrinksTwice(s: Slots, t: Slots, u: Slots)
    requires Shrinks(s, t) && Shrinks(t, u)
    ensures Shrinks(s, u)
  {
  }

  lemma {:induction false} ShrinksUp(s: Slots, t: Slots, j: nat, n: nat)
    requires Shrinks(s, t) && Up(t, j, n) < MAX_SLOTS
    ensures Up(s, j, n) == Up(t, j, n)
    decreases n
  {
    if n > 0 {
      ShrinksUp(s, t, t[j].parent, n - 1);
    }
  }

  lemma ShrinksDescendants(s: Slots, t: Slots, c: nat)
    requires Shrinks(s, t)
    ensures Descendants(t, c) <= Descendants(s, c)
    ensures Descends(t, c, c) ==> Descends(s, c, c)
  {
    forall j | 0 <= j < MAX_SLOTS && Descends(t, j, c)
      ensures Descends(s, j, c)
    {
      var n: nat :| n >= 1 && Up(t, j, n) == c;
      ShrinksUp(s, t, j, n);
    }
  }

  lemma DeleteShrinks(s: Slots, i: nat)
    requires 1 <= i < MAX_SLOTS
    ensures var t := Delete(s, Pack(i, s[i].generation)).slots;
      Shrinks(s, t) && forall j :: 0 <= j < MAX_SLOTS && j != i ==> t[j] == s[j]
  {
    hide HandleGeneration, Pack;
    PackIndex(i, s[i].generation);
  }

  lemma PackIndex(i: nat, generation: nat)
    requires i < MAX_SLOTS
    ensures HandleIndex(Pack(i, generation)) == i
  {
  }

  lemma SetSize(a: set<nat>, b: set<nat>)
    requires a <= b
    ensures |a| <= |b|
  {
    CardinalityUpTo(a, b);
  }

  // ---- cycles -----------------------------------------------------------------------------------

  /** A child on a cycle has its parent on it. */
  lemma CycleAbove(s: Slots, i: nat, p: nat)
    requires ChildOf(s, i, p) && p < MAX_SLOTS && Descends(s, i, i)
    ensures Descends(s, p, p)
  {
    var n: nat :| n >= 1 && Up(s, i, n) == i;
    ParentIs(s, i);
    UpAdd(s, i, n, 1);
    UpAdd(s, i, 1, n);
    UpInside(s, p, n, 0);
  }

  lemma ParentIs(s: Slots, i: nat)
    requires i < MAX_SLOTS && s[i].used
    ensures Up(s, i, 1) == s[i].parent
  {
    assert Up(s, s[i].parent, 0) == s[i].parent;
  }

  lemma ChildBelow(s: Slots, i: nat, p: nat)
    requires ChildOf(s, i, p) && p < MAX_SLOTS
    ensures i in Descendants(s, p) && Descendants(s, i) <= Descendants(s, p)
    ensures !Descends(s, p, p) ==> !Descends(s, i, i) && |Descendants(s, i)| < |Descendants(s, p)|
  {
    DescendsStep(s, i, i, p);
    forall j | j in Descendants(s, i) ensures j in Descendants(s, p) {
      DescendsStep(s, j, i, p);
    }
    if !Descends(s, p, p) {
      if Descends(s, i, i) {
        CycleAbove(s, i, p);
      }
      SetSize(Descendants(s, i), Descendants(s, p) - {i});
    }
  }

  // ---- a walk that ends -------------------------------------------------------------------------

  /** Only slots derived from `p` are touched, and those only freed. */
  lemma {:induction false} WalkFrame(s: Slots, p: nat, i: nat, depth: nat)
    requires p < MAX_SLOTS && 1 <= i <= MAX_SLOTS && Walk(s, p, i, depth).Some?
    ensures var t := Walk(s, p, i, depth).value.slots;
      Shrinks(s, t) && forall j :: 0 <= j < MAX_SLOTS && j !in Descendants(s, p) ==> t[j] == s[j]
    decreases depth, MAX_SLOTS - i
  {
    hide Descendants, Delete, Pack;
    if i < MAX_SLOTS {
      if !ChildOf(s, i, p) {
        WalkFrame(s, p, i + 1, depth);
      } else {
        WalkFrame(s, i, 1, depth - 1);
        ChildBelow(s, i, p);
        var t := Walk(s, i, 1, depth - 1).value.slots;
        DeleteShrinks(t, i);
        var u := Delete(t, Pack(i, t[i].generation)).slots;
        ShrinksDescendants(s, u, p);
        WalkFrame(u, p, i + 1, depth);
      }
    }
  }

  lemma {:induction false} WalkEnds(s: Slots, p: nat, i: nat, depth: nat)
    requires p < MAX_SLOTS && 1 <= i <= MAX_SLOTS && !Descends(s, p, p) && |Descendants(s, p)| <= depth
    ensures Walk(s, p, i, depth).Some?
    decreases depth, MAX_SLOTS - i
  {
    hide Descendants, Delete, Pack, Descends, Shrinks;
    if i < MAX_SLOTS {
      if !ChildOf(s, i, p) {
        WalkEnds(s, p, i + 1, depth);
      } else {
        ChildBelow(s, i, p);
        WalkEnds(s, i, 1, depth - 1);
        WalkFrame(s, i, 1, depth - 1);
        var t := Walk(s, i, 1, depth - 1).value.slots;
        DeleteShrinks(t, i);
        var u := Delete(t, Pack(i, t[i].generation)).slots;
        ShrinksTwice(s, t, u);
        ShrinksDescendants(s, u, p);
        SetSize(Descendants(u, p), Descendants(s, p));
        WalkEnds(u, p, i + 1, depth);
      }
    }
  }

  // ---- a walk that does not ---------------------------------------------------------------------

  /** What is not on a cycle is not above one. */
  lemma OffCycle(s: Slots, i: nat, p: nat, n: nat, k: nat)
    requires i < MAX_SLOTS && !Descends(s, i, i) && n >= 1 && Up(s, p, n) == p && p < MAX_SLOTS && k <= n
    ensures Up(s, p, k) < MAX_SLOTS && Up(s, p, k) != i && Up(s, p, k) !in Descendants(s, i)
  {
    UpInside(s, p, n, k);
    if Up(s, p, k) == i {
      OnCycle(s, i, p, n, k);
    } else if Up(s, p, k) in Descendants(s, i) {
      var m: nat :| m >= 1 && Up(s, Up(s, p, k), m) == i;
      UpAdd(s, p, k, m);
      OnCycle(s, i, p, n, k + m);
    }
  }

  lemma OnCycle(s: Slots, i: nat, p: nat, n: nat, k: nat)
    requires i < MAX_SLOTS && n >= 1 && Up(s, p, n) == p && Up(s, p, k) == i
    ensures Descends(s, i, i)
  {
    UpAdd(s, p, n, k);
    UpAdd(s, p, k, n);
    assert Up(s, i, n) == i;
    UpInside(s, i, n, 0);
  }

  /** The cycle through `p` is still there when slots off it are freed. */
  lemma {:induction false} CycleStays(s: Slots, t: Slots, p: nat, n: nat, k: nat)
    requires k <= n && n >= 1 && Up(s, p, n) == p && p < MAX_SLOTS
    requires forall j: nat :: j <= n ==> Up(s, p, j) < MAX_SLOTS && t[Up(s, p, j)] == s[Up(s, p, j)]
    ensures Up(t, p, k) == Up(s, p, k)
  {
    if k > 0 {
      CycleStays(s, t, p, n, k - 1);
      UpAdd(s, p, k - 1, 1);
      UpAdd(t, p, k - 1, 1);
      var x := Up(s, p, k - 1);
      UpInside(s, p, n, k - 1);
      ParentIs(s, x);
      ParentIs(t, x);
    }
  }

  lemma {:induction false} WalkNeverEnds(s: Slots, p: nat, i: nat, depth: nat, n: nat)
    requires p < MAX_SLOTS && n >= 1 && Up(s, p, n) == p && 1 <= i <= Up(s, p, n - 1) && !s[0].used
    ensures Up(s, p, n - 1) < MAX_SLOTS && Walk(s, p, i, depth).None?
    decreases depth, MAX_SLOTS - i
  {
    hide Descendants, Delete, Pack, Descends;
    var c := Up(s, p, n - 1);
    UpInside(s, p, n, n - 1);
    UpAdd(s, p, n - 1, 1);
    ParentIs(s, c);
    if !ChildOf(s, i, p) {
      WalkNeverEnds(s, p, i + 1, depth, n);
    } else if depth > 0 {
      if i == c || Descends(s, i, i) {
        var m := CycleAt(s, p, n, i);
        WalkNeverEnds(s, i, 1, depth - 1, m);
      } else if Walk(s, i, 1, depth - 1).Some? {
        var t := Walk(s, i, 1, depth - 1).value.slots;
        var u := Delete(t, Pack(i, t[i].generation)).slots;
        CycleSurvives(s, p, i, depth - 1, n);
        WalkNeverEnds(u, p, i + 1, depth, n);
      }
    }
  }

  /** A cycle through slot `i`, given one through its parent, or that there is one. */
  lemma CycleAt(s: Slots, p: nat, n: nat, i: nat) returns (m: nat)
    requires p < MAX_SLOTS && n >= 1 && Up(s, p, n) == p && !s[0].used && i < MAX_SLOTS
    requires i == Up(s, p, n - 1) || Descends(s, i, i)
    ensures m >= 1 && Up(s, i, m) == i && 1 <= Up(s, i, m - 1)
  {
    if Descends(s, i, i) {
      m :| m >= 1 && Up(s, i, m) == i;
    } else {
      m := n;
      OnCycle(s, i, p, n, n - 1);
    }
    UpInside(s, i, m, m - 1);
  }

  lemma CycleSurvives(s: Slots, p: nat, i: nat, depth: nat, n: nat)
    requires p < MAX_SLOTS && 1 <= i < MAX_SLOTS && n >= 1 && Up(s, p, n) == p && !s[0].used
    requires !Descends(s, i, i) && Walk(s, i, 1, depth).Some?
    ensures var t := Walk(s, i, 1, depth).value.slots;
      var u := Delete(t, Pack(i, t[i].generation)).slots;
      Up(u, p, n) == p && Up(u, p, n - 1) == Up(s, p, n - 1) && !u[0].used
  {
    hide Delete, Pack, Descends;
    var t := Walk(s, i, 1, depth).value.slots;
    var u := Delete(t, Pack(i, t[i].generation)).slots;
    WalkFrame(s, i, 1, depth);
    DeleteShrinks(t, i);
    forall j: nat | j <= n
      ensures Up(s, p, j) < MAX_SLOTS && u[Up(s, p, j)] == s[Up(s, p, j)]
    {
      OffCycle(s, i, p, n, j);
    }
    CycleStays(s, u, p, n, n);
    CycleStays(s, u, p, n, n - 1);
    hide Shrinks, Descendants, Walk, Up;
  }

  /** Revocation of what was derived from `p` ends if and only if `p` is on no cycle of links. */
  lemma RevocationEndsExactly(s: Slots, p: nat)
    requires p < MAX_SLOTS && !s[0].used
    ensures Ends(s, p) <==> !Descends(s, p, p)
  {
    if Descends(s, p, p) {
      var n: nat :| n >= 1 && Up(s, p, n) == p;
      var m := CycleAt(s, p, n, p);
      forall depth ensures Walk(s, p, 1, depth).None? {
        WalkNeverEnds(s, p, 1, depth, m);
      }
    } else {
      WalkEnds(s, p, 1, |Descendants(s, p)|);
    }
  }

  // ---- freeing closed sets ----------------------------------------------------------------------

  /** Freeing `g` leaves no child behind. */
  ghost predicate Closed(s: Slots, g: set<nat>) {
    forall j, p :: p in g && ChildOf(s, j, p) ==> j in g
  }

  lemma ClearIs(s: Slots, g: set<nat>)
    ensures forall i :: 0 <= i < MAX_SLOTS ==> Clear(s, g)[i] == if i in g then Freed(s[i]) else s[i]
  {
  }

  lemma ClearTwice(s: Slots, g: set<nat>, h: set<nat>)
    requires g !! h
    ensures Clear(Clear(s, g), h) == Clear(s, g + h)
  {
  }

  lemma ClosedUnder(s: Slots, c: nat)
    requires c < MAX_SLOTS
    ensures Closed(s, Descendants(s, c) + {c})
  {
    forall j, p | p in Descendants(s, c) + {c} && ChildOf(s, j, p)
      ensures j in Descendants(s, c) + {c}
    {
      assert Up(s, j, 1) == Up(s, p, 0) == p;
      if p != c {
        var n: nat :| n >= 1 && Up(s, p, n) == c;
        UpAdd(s, j, 1, n);
        assert Up(s, j, n + 1) == c;
      }
      assert Descends(s, j, c);
    }
  }

  lemma {:induction false} UpAvoids(s: Slots, g: set<nat>, j: nat, n: nat)
    requires Closed(s, g) && j !in g && (forall k :: k in g ==> k < MAX_SLOTS)
    ensures Up(Clear(s, g), j, n) == Up(s, j, n)
    decreases n
  {
    if n > 0 && j < MAX_SLOTS && s[j].used {
      if s[j].parent in g {
        assert ChildOf(s, j, s[j].parent);
      }
      UpAvoids(s, g, s[j].parent, n - 1);
    }
  }

  /** Freeing a closed set takes exactly that set out of every slot's descendants. */
  lemma DescendantsAfterClear(s: Slots, g: set<nat>, c: nat)
    requires Closed(s, g) && (forall k :: k in g ==> k < MAX_SLOTS && s[k].used)
    ensures Descendants(Clear(s, g), c) == Descendants(s, c) - g
  {
    var t := Clear(s, g);
    forall j | 0 <= j < MAX_SLOTS
      ensures Descends(t, j, c) <==> Descends(s, j, c) && j !in g
    {
      if j !in g {
        forall n: nat
          ensures Up(t, j, n) == Up(s, j, n)
        {
          UpAvoids(s, g, j, n);
        }
      }
    }
  }

  lemma RankedAfterClear(s: Slots, rank: seq<nat>, g: set<nat>)
    requires Closed(s, g) && Ranked(s, rank)
    ensures Ranked(Clear(s, g), rank)
  {
    var t := Clear(s, g);
    forall i | 0 <= i < MAX_SLOTS && t[i].used && t[i].parent != NO_PARENT
      ensures t[i].parent < MAX_SLOTS && t[t[i].parent].used
    {
      if t[i].parent in g {
        assert ChildOf(s, i, t[i].parent);
      }
    }
  }

  // ---- what an ended walk has freed -------------------------------------------------------------

  /** The children of `p` from slot `i` on, with everything derived from them. */
  ghost function Left(s: Slots, p: nat, i: nat): (g: set<nat>)
    requires i <= MAX_SLOTS
    ensures forall j :: j in g ==> j < MAX_SLOTS && s[j].used
    decreases MAX_SLOTS - i
  {
    if i == MAX_SLOTS then {}
    else Left(s, p, i + 1) + if ChildOf(s, i, p) then Descendants(s, i) + {i} else {}
  }

  /** Slot `j` is child `c` of `p`, or derived from it. */
  ghost predicate Below(s: Slots, p: nat, c: nat, j: nat) {
    ChildOf(s, c, p) && (j == c || j in Descendants(s, c))
  }

  lemma {:induction false} LeftHas(s: Slots, p: nat, i: nat, j: nat)
    requires i <= MAX_SLOTS
    ensures j in Left(s, p, i) <==> exists c :: i <= c < MAX_SLOTS && Below(s, p, c, j)
    decreases MAX_SLOTS - i
  {
    if i < MAX_SLOTS {
      hide Descendants;
      LeftHas(s, p, i + 1, j);
      assert j in Left(s, p, i) <==> j in Left(s, p, i + 1) || Below(s, p, i, j);
    }
  }

  /** From the first slot on that is everything derived from `p`. */
  lemma LeftIsAll(s: Slots, p: nat)
    requires p < MAX_SLOTS && !s[0].used
    ensures Left(s, p, 1) == Descendants(s, p)
  {
    hide Left, Descends;
    forall j ensures j in Left(s, p, 1) <==> j in Descendants(s, p) {
      LeftHas(s, p, 1, j);
      if j in Descendants(s, p) {
        var c := DescendsThroughChild(s, j, p);
        assert Below(s, p, c, j);
      } else if c :| 1 <= c < MAX_SLOTS && Below(s, p, c, j) {
        ChildBelow(s, c, p);
      }
    }
  }

  /** Every handle of these slots still resolves. */
  predicate Handled(s: Slots, g: set<nat>) {
    forall j :: j in g && j < MAX_SLOTS ==> s[j].generation < HANDLE_GENERATIONS
  }

  /** Freeing a child and what is derived from it leaves the other children's descendants to do. */
  lemma LeftAfter(s: Slots, p: nat, i: nat, g: set<nat>)
    requires 1 <= i < MAX_SLOTS && ChildOf(s, i, p) && p < MAX_SLOTS && g == Descendants(s, i) + {i}
    ensures Left(Clear(s, g), p, i + 1) == Left(s, p, i + 1) - g
    ensures Left(s, p, i) == Left(s, p, i + 1) + g
    ensures Descendants(Clear(s, g), p) == Descendants(s, p) - g
  {
    ClosedUnder(s, i);
    LeftStep(s, p, i);
    hide Left, Descends, Closed, Clear, Descendants;
    DescendantsAreLive(s, i);
    DescendantsAfterClear(s, g, p);
    forall j ensures j in Left(Clear(s, g), p, i + 1) <==> j in Left(s, p, i + 1) && j !in g {
      LeftHas(Clear(s, g), p, i + 1, j);
      LeftHas(s, p, i + 1, j);
      forall c | i + 1 <= c < MAX_SLOTS
        ensures Below(Clear(s, g), p, c, j) <==> Below(s, p, c, j) && j !in g
      {
        BelowAfter(s, p, c, j, g);
      }
    }
  }

  lemma DescendantsAreLive(s: Slots, i: nat)
    requires i < MAX_SLOTS && s[i].used
    ensures forall k :: k in Descendants(s, i) + {i} ==> k < MAX_SLOTS && s[k].used
  {
  }

  lemma BelowAfter(s: Slots, p: nat, c: nat, j: nat, g: set<nat>)
    requires Closed(s, g) && c < MAX_SLOTS && p < MAX_SLOTS && forall k :: k in g ==> k < MAX_SLOTS && s[k].used
    ensures Below(Clear(s, g), p, c, j) <==> Below(s, p, c, j) && j !in g
  {
    DescendantsAfterClear(s, g, c);
    ClearIs(s, g);
    hide Descendants, Clear, Closed;
    if Below(s, p, c, j) && j !in g {
      NotFreed(s, g, c, j);
    }
  }

  lemma LeftStep(s: Slots, p: nat, i: nat)
    requires i < MAX_SLOTS
    ensures Left(s, p, i) == Left(s, p, i + 1) + if ChildOf(s, i, p) then Descendants(s, i) + {i} else {}
  {
  }

  /** Above a slot that stays every slot stays. */
  lemma NotFreed(s: Slots, g: set<nat>, c: nat, j: nat)
    requires Closed(s, g) && j !in g && (forall k :: k in g ==> k < MAX_SLOTS) && c < MAX_SLOTS
    requires j == c || j in Descendants(s, c)
    ensures c !in g
  {
    if c in g && j != c {
      var n: nat :| n >= 1 && Up(s, j, n) == c;
      ClosedUpward(s, g, j, n);
    }
  }

  lemma {:induction false} ClosedUpward(s: Slots, g: set<nat>, j: nat, n: nat)
    requires Closed(s, g) && Up(s, j, n) in g && (forall k :: k in g ==> k < MAX_SLOTS)
    ensures j in g
    decreases n
  {
    if n > 0 {
      UpInside(s, j, n, 0);
      ClosedUpward(s, g, s[j].parent, n - 1);
      assert ChildOf(s, j, s[j].parent);
    }
  }

  /** A walk that ends has freed exactly what was to do, as far as handles reach. */
  lemma {:induction false} WalkClears(s: Slots, p: nat, i: nat, depth: nat)
    requires p < MAX_SLOTS && 1 <= i <= MAX_SLOTS && !Descends(s, p, p) && !s[0].used
    requires Walk(s, p, i, depth).Some? && Handled(s, Descendants(s, p))
    ensures Walk(s, p, i, depth).value == Walked(Clear(s, Left(s, p, i)), |Left(s, p, i)|)
    decreases depth, MAX_SLOTS - i
  {
    hide Descendants, Descends, Left, Clear, Pack, Delete, Closed;
    if i == MAX_SLOTS {
      NothingLeft(s, p);
    } else {
      LeftStep(s, p, i);
      if !ChildOf(s, i, p) {
        WalkClears(s, p, i + 1, depth);
      } else {
        var below := Descendants(s, i);
        ChildBelow(s, i, p);
        WalkClears(s, i, 1, depth - 1);
        LeftIsAll(s, i);
        var t := Clear(s, below);
        DeletedChild(s, i);
        var u := Clear(s, below + {i});
        LeftAfter(s, p, i, below + {i});
        StillHandled(s, u, p, below + {i});
        WalkClears(u, p, i + 1, depth);
        Together(s, p, i);
      }
    }
  }

  lemma NothingLeft(s: Slots, p: nat)
    ensures Left(s, p, MAX_SLOTS) == {} && Clear(s, {}) == s
  {
  }

  lemma DeletedChild(s: Slots, i: nat)
    requires 1 <= i < MAX_SLOTS && s[i].used && !Descends(s, i, i) && s[i].generation < HANDLE_GENERATIONS
    ensures var t := Clear(s, Descendants(s, i));
      t[i] == s[i] && Delete(t, Pack(i, t[i].generation)).slots == Clear(s, Descendants(s, i) + {i})
  {
    var below := Descendants(s, i);
    assert i !in below;
    var t := Clear(s, below);
    assert t[i] == s[i];
    PackResolves(t, i);
    ClearTwice(s, below, {i});
  }

  lemma StillHandled(s: Slots, u: Slots, p: nat, g: set<nat>)
    requires p < MAX_SLOTS && !s[0].used && !Descends(s, p, p) && Handled(s, Descendants(s, p))
    requires u == Clear(s, g) && Descendants(u, p) == Descendants(s, p) - g
    ensures Handled(u, Descendants(u, p)) && !u[0].used && !Descends(u, p, p)
  {
    assert Descends(u, p, p) ==> p in Descendants(u, p);
    hide Descends;
  }

  lemma Together(s: Slots, p: nat, i: nat)
    requires 1 <= i < MAX_SLOTS && ChildOf(s, i, p) && p < MAX_SLOTS && !Descends(s, i, i)
    ensures var g := Descendants(s, i) + {i}; var u := Clear(s, g);
      && Clear(u, Left(u, p, i + 1)) == Clear(s, Left(s, p, i))
      && |Left(s, p, i)| == |Descendants(s, i)| + 1 + |Left(u, p, i + 1)|
  {
    var g := Descendants(s, i) + {i};
    assert i !in Descendants(s, i);
    LeftAfter(s, p, i, g);
    ClosedUnder(s, i);
    var rest := Left(Clear(s, g), p, i + 1);
    hide Left, Descendants, Descends, Closed;
    assert Left(s, p, i) == g + rest && g !! rest;
    ClearTwice(s, g, rest);
  }

  /** The table once everything derived from `p` has been revoked. */
  ghost function RevokedFrom(s: Slots, p: nat): Slots
    requires p < MAX_SLOTS && !Descends(s, p, p)
  {
    WalkEnds(s, p, 1, |Descendants(s, p)|);
    Walk(s, p, 1, |Descendants(s, p)|).value.slots
  }

  /** Where handles reach, that is the table with exactly those slots freed. */
  lemma RevokedFromIs(s: Slots, p: nat)
    requires p < MAX_SLOTS && !Descends(s, p, p) && !s[0].used && Handled(s, Descendants(s, p))
    ensures RevokedFrom(s, p) == Clear(s, Descendants(s, p))
  {
    hide Descendants, Descends, Clear, Walk, Handled;
    WalkEnds(s, p, 1, |Descendants(s, p)|);
    WalkClears(s, p, 1, |Descendants(s, p)|);
    LeftIsAll(s, p);
  }
}
