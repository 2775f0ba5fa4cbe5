/** Capability slots as values: handles, derivation links, and the forest the links form. */
module Capabilities {
  import opened Bits

  const MAX_SLOTS := 256
  const NO_PARENT := 0xFFFF
  const GENERATIONS := 0x1_0000_0000   // generations are 32-bit counters
  const HANDLE_GENERATIONS := 0x100_0000   // a handle has room for 24 bits of generation

  const RIGHT_REVOKE: Rights := 0x10

  /** A 32-bit mask. */
  type Rights = r: nat | r < 0x1_0000_0000

  datatype ObjectType = NoObject | Frame | Endpoint | Notification | File | Device | Irq | Process

  datatype Object = Object(kind: ObjectType, id: nat)

  datatype Slot = Slot(target: Object, rights: Rights, generation: nat, parent: nat, used: bool)

  type Slots = s: seq<Slot> | |s| == MAX_SLOTS && forall i :: 0 <= i < MAX_SLOTS ==> s[i].generation < GENERATIONS
    witness seq(MAX_SLOTS, i => FreshSlot())

  function FreshSlot(): Slot {
    Slot(Object(NoObject, 0), 0, 1, NO_PARENT, false)
  }

  function EmptyTable(): Slots {
    seq(MAX_SLOTS, i => FreshSlot())
  }

  /** Right number `k`, counted from the least significant bit. */
  predicate HasRight(rights: nat, k: nat)
    decreases k
  {
    if k == 0 then rights % 2 == 1 else HasRight(rights / 2, k - 1)
  }

  /** Every right in `a` is in `b`. */
  predicate Subset(a: Rights, b: Rights) {
    SubsetBelow(a, b, 32)
  }

  /** The same for the rights numbered below `n`. */
  predicate SubsetBelow(a: nat, b: nat, n: nat) {
    forall k :: 0 <= k < n && HasRight(a, k) ==> HasRight(b, k)
  }

  /** The mask test. */
  predicate Covers(held: Rights, required: Rights) {
    BitAnd(held, required) == required
  }

  /** The mask test holds exactly when no right is missing. */
  lemma CoversIsSubset(held: Rights, required: Rights)
    ensures Covers(held, required) <==> Subset(required, held)
  {
    PowersOfTwo();
    hide SubsetBelow, BitAnd, Pow2;
    MaskBelow(held, required, 32);
  }

  lemma {:induction false} MaskBelow(held: nat, required: nat, n: nat)
    requires required < Pow2(n)
    ensures BitAnd(held, required) == required <==> SubsetBelow(required, held, n)
    decreases n
  {
    if n == 0 {
      BitAndZero(held);
    } else {
      MaskBelow(held / 2, required / 2, n - 1);
      BitAndStep(held, required);
      HigherRights(held, required, n);
    }
  }

  lemma BitAndStep(held: nat, required: nat)
    ensures BitAnd(held, required) == required <==>
      (required % 2 == 1 ==> held % 2 == 1) && BitAnd(held / 2, required / 2) == required / 2
  {
    assert BitAnd(0, 0) == 0;
  }

  lemma HigherRights(held: nat, required: nat, n: nat)
    requires n > 0
    ensures SubsetBelow(required, held, n) <==>
      (required % 2 == 1 ==> held % 2 == 1) && SubsetBelow(required / 2, held / 2, n - 1)
  {
    RightsShift(held);
    RightsShift(required);
    hide HasRight;
    if SubsetBelow(required, held, n) {
      assert HasRight(required, 0) ==> HasRight(held, 0);
      forall k | 0 <= k < n - 1 && HasRight(required / 2, k) ensures HasRight(held / 2, k) {
        assert HasRight(required, k + 1);
      }
    } else {
      var k :| 0 <= k < n && HasRight(required, k) && !HasRight(held, k);
      assert k > 0 ==> HasRight(required / 2, k - 1) && !HasRight(held / 2, k - 1);
    }
  }

  lemma RightsShift(rights: nat)
    ensures HasRight(rights, 0) <==> rights % 2 == 1
    ensures forall k :: k > 0 ==> (HasRight(rights, k) <==> HasRight(rights / 2, k - 1))
  {
  }

  predicate MayRevoke(held: Rights) {
    BitAnd(held, RIGHT_REVOKE) != 0
  }

  // ---- handles ------------------------------------------------------------------------------

  const INVALID: nat := 0

  /** `(generation << 8) | index` in 32 bits. */
  function Pack(index: nat, generation: nat): (cap: nat)
    requires index < MAX_SLOTS
    ensures cap < 0x1_0000_0000
  {
    generation % HANDLE_GENERATIONS * 256 + index
  }

  function HandleIndex(cap: nat): nat {
    cap % 256
  }

  function HandleGeneration(cap: nat): nat {
    cap / 256
  }

  /** A handle names the live slot it was made for, until that slot's generation moves on. */
  predicate Resolves(s: Slots, cap: nat) {
    && cap != INVALID
    && HandleIndex(cap) != 0
    && s[HandleIndex(cap)].used
    && s[HandleIndex(cap)].generation == HandleGeneration(cap)
  }

  lemma PackResolves(s: Slots, i: nat)
    requires 0 < i < MAX_SLOTS && s[i].used
    ensures HandleIndex(Pack(i, s[i].generation)) == i
    ensures Resolves(s, Pack(i, s[i].generation)) <==> s[i].generation < HANDLE_GENERATIONS
  {
  }

  // ---- freeing ------------------------------------------------------------------------------

  function Freed(slot: Slot): Slot {
    Slot(Object(NoObject, 0), 0, (slot.generation + 1) % GENERATIONS, NO_PARENT, false)
  }

  /** The table with exactly the slots of `gone` freed. */
  function Clear(s: Slots, gone: set<nat>): Slots {
    seq(MAX_SLOTS, i requires 0 <= i < MAX_SLOTS => if i in gone then Freed(s[i]) else s[i])
  }

  function Live(s: Slots): (live: set<nat>) {
    set i | 0 <= i < MAX_SLOTS && s[i].used
  }

  // ---- derivation links ---------------------------------------------------------------------

  predicate ChildOf(s: Slots, i: nat, p: nat) {
    i < MAX_SLOTS && s[i].used && s[i].parent == p && p != NO_PARENT
  }

  /** The `n`-th ancestor of slot `i` along recorded parents. */
  function Up(s: Slots, i: nat, n: nat): nat
    decreases n
  {
    if n == 0 then i
    else if i < MAX_SLOTS && s[i].used then Up(s, s[i].parent, n - 1)
    else NO_PARENT
  }

  /** Slot `i` is live and was derived from `p`, directly or through other capabilities. */
  ghost predicate Descends(s: Slots, i: nat, p: nat) {
    i < MAX_SLOTS && s[i].used && p < MAX_SLOTS && exists n: nat :: n >= 1 && Up(s, i, n) == p
  }

  ghost function Descendants(s: Slots, p: nat): set<nat> {
    set i | 0 <= i < MAX_SLOTS && Descends(s, i, p)
  }

  /** Every recorded parent is live and ranks below its child. */
  ghost predicate Ranked(s: Slots, rank: seq<nat>) {
    && |rank| == MAX_SLOTS
    && forall i :: 0 <= i < MAX_SLOTS && s[i].used && s[i].parent != NO_PARENT ==>
         s[i].parent < MAX_SLOTS && s[s[i].parent].used && rank[s[i].parent] < rank[i]
  }

  /** The links are acyclic and none names a dead slot. */
  ghost predicate Forest(s: Slots) {
    !s[0].used && exists rank :: Ranked(s, rank)
  }

  lemma {:induction false} UpAdd(s: Slots, i: nat, m: nat, n: nat)
    ensures Up(s, i, m + n) == Up(s, Up(s, i, m), n)
    decreases m
  {
    if m > 0 {
      if i < MAX_SLOTS && s[i].used {
        UpAdd(s, s[i].parent, m - 1, n);
      } else {
        UpNone(s, n);
      }
    }
  }

  lemma {:induction false} UpNone(s: Slots, n: nat)
    ensures Up(s, NO_PARENT, n) == NO_PARENT
  {
  }

  /** Along a chain that stays inside the table every slot is live and ranks strictly fall. */
  lemma {:induction false} UpRank(s: Slots, rank: seq<nat>, i: nat, n: nat)
    requires Ranked(s, rank) && i < MAX_SLOTS && s[i].used
    requires Up(s, i, n) < MAX_SLOTS
    ensures s[Up(s, i, n)].used && rank[Up(s, i, n)] + n <= rank[i]
    decreases n
  {
    if n > 0 {
      UpNone(s, n - 1);
      UpRank(s, rank, s[i].parent, n - 1);
    }
  }

  lemma {:induction false} UpInside(s: Slots, i: nat, n: nat, k: nat)
    requires k <= n && Up(s, i, n) < MAX_SLOTS
    ensures Up(s, i, k) < MAX_SLOTS && (k < n ==> s[Up(s, i, k)].used)
  {
    UpAdd(s, i, k, n - k);
  }

  lemma NotOwnDescendant(s: Slots, rank: seq<nat>, i: nat)
    requires Ranked(s, rank)
    ensures !Descends(s, i, i)
  {
    if Descends(s, i, i) {
      var n: nat :| n >= 1 && Up(s, i, n) == i;
      UpRank(s, rank, i, n);
    }
  }

  lemma DescendsStep(s: Slots, i: nat, c: nat, p: nat)
    requires p < MAX_SLOTS && ChildOf(s, c, p)
    ensures Descends(s, c, p)
    ensures Descends(s, i, c) ==> Descends(s, i, p)
  {
    assert Up(s, c, 1) == Up(s, p, 0) == p;
    if Descends(s, i, c) {
      var n: nat :| n >= 1 && Up(s, i, n) == c;
      UpAdd(s, i, n, 1);
      assert Up(s, i, n + 1) == p;
    }
  }

  /** A descendant of `p` is a child of `p` or descends from one. */
  lemma DescendsThroughChild(s: Slots, i: nat, p: nat) returns (c: nat)
    requires Descends(s, i, p)
    ensures ChildOf(s, c, p) && (i == c || Descends(s, i, c))
  {
    var n: nat :| n >= 1 && Up(s, i, n) == p;
    c := Up(s, i, n - 1);
    UpInside(s, i, n, n - 1);
    UpAdd(s, i, n - 1, 1);
    assert Up(s, c, 1) == Up(s, s[c].parent, 0);
    if n > 1 {
      assert Up(s, i, n - 1) == c;
    }
  }

  /** A derivation chain never visits more slots than there are live ones: revocation
      recurses at most that deep. */
  lemma ChainsAreShort(s: Slots, i: nat, n: nat)
    requires Forest(s) && i < MAX_SLOTS && s[i].used && Up(s, i, n) < MAX_SLOTS
    ensures n < |Live(s)| < MAX_SLOTS
  {
    hide Usable, Up;
    var rank :| Ranked(s, rank);
    var chain := ChainSet(s, rank, i, n);
    CardinalityUpTo(chain, Live(s));
    CardinalityUpTo(Live(s), Usable(MAX_SLOTS));
  }

  lemma {:induction false} ChainSet(s: Slots, rank: seq<nat>, i: nat, n: nat) returns (chain: set<nat>)
    requires Ranked(s, rank) && i < MAX_SLOTS && s[i].used && Up(s, i, n) < MAX_SLOTS
    ensures |chain| == n + 1 && chain <= Live(s)
    ensures forall j :: j in chain ==> j < MAX_SLOTS && rank[j] <= rank[i]
    decreases n
  {
    if n == 0 {
      chain := {i};
    } else {
      UpInside(s, i, n, 1);
      assert Up(s, i, 1) == Up(s, s[i].parent, 0);
      assert rank[s[i].parent] < rank[i] && i in Live(s);
      hide Up, Live;
      var above := ChainSet(s, rank, s[i].parent, n - 1);
      assert i !in above;
      chain := above + {i};
    }
  }

  /** The slots 1 to `n - 1`. */
  function Usable(n: nat): (r: set<nat>)
    requires n >= 1
    ensures |r| == n - 1 && forall j :: j in r <==> 1 <= j < n
  {
    if n == 1 then {} else Usable(n - 1) + {n - 1}
  }

  lemma {:induction false} CardinalityUpTo(a: set<nat>, b: set<nat>)
    requires a <= b
    ensures |a| <= |b|
    decreases |a|
  {
    if x :| x in a {
      CardinalityUpTo(a - {x}, b - {x});
    }
  }

  // ---- the operations on values ---------------------------------------------------------------

  datatype Status = AF_OK | AF_ERR_CAP_INVALID | AF_ERR_PERM | AF_ERR_TOOMANY

  /** The lowest unused slot from `from` on, or MAX_SLOTS. */
  function FirstFree(s: Slots, from: nat): (i: nat)
    requires from <= MAX_SLOTS
    ensures from <= i <= MAX_SLOTS
    ensures i < MAX_SLOTS ==> !s[i].used
    ensures forall j :: from <= j < i ==> s[j].used
    decreases MAX_SLOTS - from
  {
    if from < MAX_SLOTS && s[from].used then FirstFree(s, from + 1) else from
  }

  function Fill(s: Slots, i: nat, target: Object, rights: Rights, parent: nat): Slots
    requires i < MAX_SLOTS
  {
    s[i := Slot(target, rights, s[i].generation, parent, true)]
  }

  datatype Answer = Answer(slots: Slots, status: Status, cap: nat)

  function Insert(s: Slots, target: Object, rights: Rights): Answer {
    var i := FirstFree(s, 1);
    if target.kind == NoObject || i == MAX_SLOTS then Answer(s, AF_ERR_TOOMANY, INVALID)
    else Answer(Fill(s, i, target, rights, NO_PARENT), AF_OK, Pack(i, s[i].generation))
  }

  /** A derived capability is linked to its parent unless its slot's generation no longer
      fits a handle. */
  function Derive(s: Slots, cap: nat, rights: Rights): Answer {
    if !Resolves(s, cap) then Answer(s, AF_ERR_CAP_INVALID, INVALID)
    else
      var p := HandleIndex(cap);
      if !Subset(rights, s[p].rights) then Answer(s, AF_ERR_PERM, INVALID)
      else
        var i := FirstFree(s, 1);
        if s[p].target.kind == NoObject || i == MAX_SLOTS then Answer(s, AF_ERR_TOOMANY, INVALID)
        else
          var link := if s[i].generation < HANDLE_GENERATIONS then p else NO_PARENT;
          Answer(Fill(s, i, s[p].target, rights, link), AF_OK, Pack(i, s[i].generation))
  }

  function Delete(s: Slots, cap: nat): Answer {
    if !Resolves(s, cap) then Answer(s, AF_ERR_CAP_INVALID, INVALID)
    else Answer(Clear(s, {HandleIndex(cap)}), AF_OK, INVALID)
  }

  ghost function Revoke(s: Slots, cap: nat): Answer {
    if !Resolves(s, cap) then Answer(s, AF_ERR_CAP_INVALID, INVALID)
    else
      var p := HandleIndex(cap);
      if !MayRevoke(s[p].rights) then Answer(s, AF_ERR_PERM, INVALID)
      else Answer(Clear(s, Descendants(s, p) + {p}), AF_OK, INVALID)
  }
}
