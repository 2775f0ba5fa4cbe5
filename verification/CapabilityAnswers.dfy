/** What each capability operation answers and does to the table, by what the handle names and
    which rights are asked for. */
module CapabilityAnswers {
  import opened Bits
  import opened Capabilities
  import opened CapabilityRevocations

  // ---- who may revoke -----------------------------------------------------------------------------

  /** The right to revoke is right number four. */
  lemma MayRevokeMeans(held: Rights)
    ensures MayRevoke(held) <==> HasRight(held, 4)
    ensures MayRevoke(held) <==> held / 16 % 2 == 1
  {
    var a, b, c, d := held / 2, held / 2 / 2, held / 2 / 2 / 2, held / 2 / 2 / 2 / 2;
    assert BitAnd(held, 16) == 2 * BitAnd(a, 8);
    assert BitAnd(a, 8) == 2 * BitAnd(b, 4);
    assert BitAnd(b, 4) == 2 * BitAnd(c, 2);
    assert BitAnd(c, 2) == 2 * BitAnd(d, 1);
    assert BitAnd(d, 1) == d % 2 + 2 * BitAnd(d / 2, 0);
    BitAndZero(d / 2);
    assert HasRight(held, 4) <==> HasRight(a, 3);
    assert HasRight(a, 3) <==> HasRight(b, 2);
    assert HasRight(b, 2) <==> HasRight(c, 1);
    assert HasRight(c, 1) <==> HasRight(d, 0);
  }

  /** A revocation is carried out exactly when the handle resolves to a slot that has the right;
      in every other case the answer says why and nothing changes. */
  lemma RevokeAnswers(s: Slots, cap: nat)
    ensures var a := Revoke(s, cap);
      && (a.status == AF_ERR_CAP_INVALID <==> !Resolves(s, cap))
      && (a.status == AF_OK <==> Resolves(s, cap) && HasRight(s[HandleIndex(cap)].rights, 4))
      && (a.status == AF_ERR_PERM <==> Resolves(s, cap) && !HasRight(s[HandleIndex(cap)].rights, 4))
      && (a.status != AF_OK ==> a.slots == s)
    ensures var a := Revoke(s, cap); var p := HandleIndex(cap);
      a.status == AF_OK ==> forall i :: 0 <= i < 256 ==>
        a.slots[i] == if i == p || Descends(s, i, p) then Freed(s[i]) else s[i]
  {
    hide Descends, MayRevoke, HasRight;
    if Resolves(s, cap) {
      MayRevokeMeans(s[HandleIndex(cap)].rights);
    }
  }

  /** A freed slot names nothing and is one generation on. */
  lemma FreedIs(slot: Slot)
    requires slot.generation < 0x1_0000_0000
    ensures !Freed(slot).used && Freed(slot).rights == 0 && Freed(slot).target.kind == NoObject
    ensures Freed(slot).generation == if slot.generation == 0xFFFF_FFFF then 0 else slot.generation + 1
  {
  }

  // ---- what is handed out -------------------------------------------------------------------------

  ghost predicate HasRoom(s: Slots) {
    exists i :: 1 <= i < 256 && !s[i].used
  }

  lemma RoomMeans(s: Slots)
    ensures HasRoom(s) <==> FirstFree(s, 1) < 256
  {
    hide FirstFree;
    if i :| 1 <= i < 256 && !s[i].used {
      assert FirstFree(s, 1) <= i;
    }
  }

  /** Slot `i` was free and holds the capability now; nothing else has changed. The handle names
      it while the generation fits. */
  ghost predicate Granted(s: Slots, a: Answer, target: Object, rights: Rights, parent: nat) {
    var i := a.cap % 256;
    && 1 <= i && !s[i].used && a.slots[i].used
    && a.slots[i].target == target && a.slots[i].rights == rights && a.slots[i].parent == parent
    && a.slots[i].generation == s[i].generation
    && a.cap == s[i].generation % 0x100_0000 * 256 + i
    && (forall j :: 0 <= j < 256 && j != i ==> a.slots[j] == s[j])
    && (Resolves(a.slots, a.cap) <==> s[i].generation < 0x100_0000)
  }

  lemma FillGrants(s: Slots, target: Object, rights: Rights, parent: nat)
    requires FirstFree(s, 1) < 256
    ensures var i := FirstFree(s, 1);
      Granted(s, Answer(Fill(s, i, target, rights, parent), AF_OK, Pack(i, s[i].generation)), target, rights, parent)
  {
    var i := FirstFree(s, 1);
    var t := Fill(s, i, target, rights, parent);
    hide FirstFree;
    PackResolves(t, i);
  }

  /** A capability is made exactly when it names an object and a slot is free. */
  lemma InsertAnswers(s: Slots, target: Object, rights: Rights)
    ensures var a := Insert(s, target, rights);
      && (a.status == AF_OK <==> target.kind != NoObject && HasRoom(s))
      && (a.status == AF_OK ==> Granted(s, a, target, rights, 0xFFFF))
      && (a.status != AF_OK ==> a == Answer(s, AF_ERR_TOOMANY, 0))
  {
    RoomMeans(s);
    hide HasRoom, Granted, FirstFree, Pack;
    if FirstFree(s, 1) < 256 {
      FillGrants(s, target, rights, 0xFFFF);
    }
  }

  /** A capability is derived exactly when the handle resolves, no right is asked for that the
      parent lacks, and a slot is free; it names the parent's object with the rights asked for,
      and descends from the parent unless its own handle is dead from the start. */
  lemma DeriveAnswers(s: Slots, cap: nat, rights: Rights)
    ensures var a := Derive(s, cap, rights); var p := s[cap % 256];
      && (a.status == AF_ERR_CAP_INVALID <==> !Resolves(s, cap))
      && (a.status == AF_ERR_PERM <==> Resolves(s, cap) && !Subset(rights, p.rights))
      && (a.status == AF_OK <==>
            Resolves(s, cap) && Subset(rights, p.rights) && p.target.kind != NoObject && HasRoom(s))
      && (a.status != AF_OK ==> a.slots == s && a.cap == 0)
      && (a.status == AF_OK ==> Granted(s, a, p.target, rights, a.slots[a.cap % 256].parent))
      && (a.status == AF_OK && Resolves(a.slots, a.cap) ==> Descends(a.slots, a.cap % 256, cap % 256))
  {
    RoomMeans(s);
    hide HasRoom, FirstFree, Pack, Subset, Descends;
    if Derive(s, cap, rights).status == AF_OK {
      DerivedIs(s, cap, rights);
    }
  }

  lemma DerivedIs(s: Slots, cap: nat, rights: Rights)
    requires Derive(s, cap, rights).status == AF_OK
    ensures var a := Derive(s, cap, rights); var i := a.cap % 256;
      && Granted(s, a, s[cap % 256].target, rights, a.slots[i].parent)
      && (Resolves(a.slots, a.cap) ==> Descends(a.slots, i, cap % 256))
  {
    var p, i, a := cap % 256, FirstFree(s, 1), Derive(s, cap, rights);
    var link := if s[i].generation < HANDLE_GENERATIONS then p else NO_PARENT;
    hide FirstFree, Subset;
    FillGrants(s, s[p].target, rights, link);
    if Resolves(a.slots, a.cap) {
      DescendsStep(a.slots, p, i, p);
    }
  }

  /** A delete takes exactly the capability named. */
  lemma DeleteAnswers(s: Slots, cap: nat)
    ensures var a := Delete(s, cap);
      && (a.status == AF_OK <==> Resolves(s, cap))
      && (a.status != AF_OK ==> a.status == AF_ERR_CAP_INVALID && a.slots == s)
      && (a.status == AF_OK ==> !Resolves(a.slots, cap) && a.slots[cap % 256] == Freed(s[cap % 256]))
      && (forall j :: 0 <= j < 256 && j != cap % 256 ==> a.slots[j] == s[j])
  {
    hide Freed;
    assert !Freed(s[cap % 256]).used by {
      FreedIs(s[cap % 256]);
    }
  }

  /** What a capability is derived for: whoever may revoke the parent can take it back. */
  lemma DeriveThenRevoke(s: Slots, cap: nat, rights: Rights)
    requires Derive(s, cap, rights).status == AF_OK && HasRight(s[cap % 256].rights, 4)
    ensures var a := Derive(s, cap, rights); var b := Revoke(a.slots, cap);
      && b.status == AF_OK && !Resolves(b.slots, cap) && !Resolves(b.slots, a.cap)
  {
    var a := Derive(s, cap, rights);
    DeriveAnswers(s, cap, rights);
    RevokeAnswers(a.slots, cap);
    RevokedSlots(a.slots, cap, a.cap);
    RevokedSlots(a.slots, cap, cap);
  }

  lemma RevokedSlots(s: Slots, cap: nat, victim: nat)
    requires Revoke(s, cap).status == AF_OK
    requires Resolves(s, victim) ==> victim % 256 == cap % 256 || Descends(s, victim % 256, cap % 256)
    ensures !Resolves(Revoke(s, cap).slots, victim)
  {
    hide Descends;
  }
}
