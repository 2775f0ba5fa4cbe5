/** The capability table: one array of slots, updated in place. */
module CapabilityTables {
  import opened Options
  import opened Capabilities
  import opened CapabilityRevocations

  class CapTable {
    const slots: array<Slot>
    var used: nat

    ghost predicate Valid()
      reads this, slots
    {
      && slots.Length == MAX_SLOTS
      && (forall i :: 0 <= i < MAX_SLOTS ==> slots[i].generation < GENERATIONS)
      && used == |Live(slots[..])| && !slots[0].used
    }

    ghost function Contents(): Slots
      requires Valid()
      reads this, slots
    {
      slots[..]
    }

    constructor ()
      ensures Valid() && fresh(slots) && Contents() == EmptyTable()
    {
      slots := new Slot[MAX_SLOTS](i => Slot(Object(NoObject, 0), 0, 0, 0, false));
      used := 0;
      new;
      for i := 0 to MAX_SLOTS
        invariant forall k :: 0 <= k < i ==> slots[k] == FreshSlot()
        invariant forall k :: i <= k < MAX_SLOTS ==> slots[k] == Slot(Object(NoObject, 0), 0, 0, 0, false)
        invariant used == 0
      {
        slots[i] := slots[i].(generation := 1);
        slots[i] := slots[i].(parent := NO_PARENT);
      }
      assert slots[..] == EmptyTable();
      assert Live(slots[..]) == {};
    }

    /** The slot a handle names, or MAX_SLOTS. */
    method Resolve(cap: nat) returns (index: nat)
      requires Valid()
      ensures index == if Resolves(Contents(), cap) then HandleIndex(cap) else MAX_SLOTS
    {
      if cap == INVALID {
        return MAX_SLOTS;
      }
      index := HandleIndex(cap);
      if index == 0 || !slots[index].used || slots[index].generation != HandleGeneration(cap) {
        return MAX_SLOTS;
      }
    }

    method Insert(target: Object, rights: Rights) returns (cap: nat)
      requires Valid()
      modifies this, slots
      ensures Valid()
      ensures var a := Capabilities.Insert(old(Contents()), target, rights); Contents() == a.slots && cap == a.cap
    {
      hide FirstFree, Pack;
      if target.kind == NoObject {
        return INVALID;
      }
      for i := 1 to MAX_SLOTS
        invariant Valid() && slots[..] == old(slots[..]) && used == old(used)
        invariant FirstFree(slots[..], i) == FirstFree(slots[..], 1)
      {
        FirstFreeStep(slots[..], i);
        if slots[i].used {
          continue;
        }
        slots[i] := Slot(target, rights, slots[i].generation, NO_PARENT, true);
        assert Live(slots[..]) == Live(old(slots[..])) + {i};
        used := used + 1;
        return Pack(i, slots[i].generation);
      }
      FirstFreeStep(slots[..], MAX_SLOTS);
      return INVALID;
    }

    method Lookup(cap: nat, required: Rights) returns (status: Status, target: Object)
      requires Valid()
      ensures !Resolves(Contents(), cap) ==> status == AF_ERR_CAP_INVALID
      ensures Resolves(Contents(), cap) ==>
        var slot := Contents()[HandleIndex(cap)];
        && (status == AF_OK <==> Subset(required, slot.rights))
        && (status != AF_OK ==> status == AF_ERR_PERM)
        && (status == AF_OK ==> target == slot.target)
    {
      hide Covers, Subset;
      target := Object(NoObject, 0);
      var index := Resolve(cap);
      if index == MAX_SLOTS {
        return AF_ERR_CAP_INVALID, target;
      }
      CoversIsSubset(slots[index].rights, required);
      if !Covers(slots[index].rights, required) {
        return AF_ERR_PERM, target;
      }
      return AF_OK, slots[index].target;
    }

    method Derive(cap: nat, rights: Rights) returns (status: Status, child: nat)
      requires Valid()
      modifies this, slots
      ensures Valid()
      ensures var a := Capabilities.Derive(old(Contents()), cap, rights);
        Contents() == a.slots && status == a.status && child == a.cap
    {
      hide Subset, Covers, FirstFree, Pack, HandleGeneration;
      var p := Resolve(cap);
      if p == MAX_SLOTS {
        return AF_ERR_CAP_INVALID, INVALID;
      }
      CoversIsSubset(slots[p].rights, rights);
      if !Covers(slots[p].rights, rights) {
        return AF_ERR_PERM, INVALID;
      }
      ghost var before := Contents();
      child := Insert(slots[p].target, rights);
      if child == INVALID {
        InsertFails(before, before[p].target, rights);
        return AF_ERR_TOOMANY, INVALID;
      }
      ghost var i := FirstFree(before, 1);
      PackResolves(Contents(), i);
      var c := Resolve(child);
      if c != MAX_SLOTS {
        ghost var live := Live(slots[..]);
        slots[c] := slots[c].(parent := HandleIndex(cap));
        assert Live(slots[..]) == live;
      }
      status := AF_OK;
    }

    method Delete(cap: nat) returns (status: Status)
      requires Valid()
      modifies this, slots
      ensures Valid()
      ensures var a := Capabilities.Delete(old(Contents()), cap); Contents() == a.slots && status == a.status
      ensures used == if status == AF_OK then old(used) - 1 else old(used)
    {
      var i := Resolve(cap);
      if i == MAX_SLOTS {
        return AF_ERR_CAP_INVALID;
      }
      ghost var before := Contents();
      slots[i] := Slot(Object(NoObject, 0), 0, (slots[i].generation + 1) % GENERATIONS, NO_PARENT, false);
      assert Live(slots[..]) == Live(before) - {i};
      assert i in Live(before);
      assert slots[..] == Clear(before, {i});
      if used > 0 {
        used := used - 1;
      }
      status := AF_OK;
    }

    /** Frees the children of slot `p` with everything derived from them, depth first, wherever
        that comes to an end. The ghost parameter bounds the recursion. */
    method RevokeChildren(p: nat, ghost depth: nat) returns (revoked: nat)
      requires Valid() && p < MAX_SLOTS && Walk(Contents(), p, 1, depth).Some?
      modifies this, slots
      ensures Valid()
      ensures Some(Walked(Contents(), revoked)) == Walk(old(Contents()), p, 1, depth)
      decreases depth
    {
      hide Live, Pack, HandleGeneration, Clear;
      ghost var s := Contents();
      revoked := 0;
      for i := 1 to MAX_SLOTS
        invariant Valid()
        invariant Walk(s, p, 1, depth) == More(revoked, Walk(Contents(), p, i, depth))
      {
        if !slots[i].used || slots[i].parent != p {
          continue;
        }
        ghost var before := revoked;
        var deeper := RevokeChildren(i, depth - 1);
        revoked := revoked + deeper;
        var _ := Delete(Pack(i, slots[i].generation));
        revoked := revoked + 1;
      }
    }

    /** Revokes, if no cycle of links goes through the slot named: exactly then the recursion
        ends. Everything derived from it goes, unless a generation no longer fits a handle. */
    method Revoke(cap: nat) returns (status: Status)
      requires Valid() && (Resolves(Contents(), cap) ==> !Descends(Contents(), HandleIndex(cap), HandleIndex(cap)))
      modifies this, slots
      ensures Valid()
      ensures status == Capabilities.Revoke(old(Contents()), cap).status
      ensures Contents() == if status == AF_OK
        then Capabilities.Delete(RevokedFrom(old(Contents()), HandleIndex(cap)), cap).slots else old(Contents())
      ensures Handled(old(Contents()), Descendants(old(Contents()), HandleIndex(cap))) ==>
        && Contents() == Capabilities.Revoke(old(Contents()), cap).slots
        && used == if status == AF_OK then old(used) - |Descendants(old(Contents()), HandleIndex(cap))| - 1 else old(used)
    {
      hide Descendants, Clear, Live, MayRevoke, Walk, Descends, Handled;
      var i := Resolve(cap);
      if i == MAX_SLOTS {
        return AF_ERR_CAP_INVALID;
      }
      if !MayRevoke(slots[i].rights) {
        return AF_ERR_PERM;
      }
      ghost var s := Contents();
      WalkEnds(s, i, 1, |Descendants(s, i)|);
      var _ := RevokeChildren(i, |Descendants(s, i)|);
      assert Contents() == RevokedFrom(s, i);
      var _ := Delete(cap);
      status := AF_OK;
      if Handled(s, Descendants(s, i)) {
        RevokedIs(s, i, cap);
      }
    }
  }

  /** Slot 0 is never handed out, and every live slot's handle still resolves. */
  ghost predicate Revocable(s: Slots) {
    && !s[0].used
    && forall i :: 0 <= i < MAX_SLOTS && s[i].used ==> s[i].generation < HANDLE_GENERATIONS
  }

  /** Adds what has been counted so far. */
  function More(revoked: nat, w: Option<Walked>): Option<Walked> {
    match w
    case None => None
    case Some(v) => Some(Walked(v.slots, revoked + v.revoked))
  }

  lemma RevokedIs(s: Slots, i: nat, cap: nat)
    requires Resolves(s, cap) && i == HandleIndex(cap) && MayRevoke(s[i].rights)
    requires !Descends(s, i, i) && !s[0].used && Handled(s, Descendants(s, i))
    ensures var t := Capabilities.Delete(RevokedFrom(s, i), cap).slots;
      t == Capabilities.Revoke(s, cap).slots && |Live(t)| == |Live(s)| - |Descendants(s, i)| - 1
  {
    var below := Descendants(s, i);
    assert i !in below;
    assert below + {i} <= Live(s);
    RevokedFromIs(s, i);
    ClearTwice(s, below, {i});
    hide Descendants, Descends, RevokedFrom, Handled, MayRevoke;
    assert Clear(s, below)[i] == s[i];
    LiveAfterClear(s, below + {i});
  }

  lemma LiveAfterClear(s: Slots, g: set<nat>)
    requires g <= Live(s)
    ensures |Live(Clear(s, g))| == |Live(s)| - |g|
  {
    assert Live(Clear(s, g)) == Live(s) - g;
  }

  lemma FirstFreeStep(s: Slots, i: nat)
    requires i <= MAX_SLOTS
    ensures FirstFree(s, i) == if i < MAX_SLOTS && s[i].used then FirstFree(s, i + 1) else i
  {
  }

  lemma InsertFails(s: Slots, target: Object, rights: Rights)
    ensures var a := Capabilities.Insert(s, target, rights);
      a.cap == INVALID <==> target.kind == NoObject || FirstFree(s, 1) == MAX_SLOTS
  {
  }
}
