/** The variable-length integers of the .xz format: seven bits a byte, least significant group
    first, the high bit set on every byte but the last. */
module Vli {
  import opened Bits
  import opened Options

  /** Nine groups of seven bits. */
  const VLI_BYTES: nat := 9

  /** The one way to write a number down (section 1.2 of The .xz File Format). */
  function EncodeVli(v: nat): (s: seq<Byte>)
    ensures s != []
    decreases v
  {
    if v < 128 then [v] else [128 + v % 128] + EncodeVli(v / 128)
  }

  /** The seven bits a byte carries. */
  function Group(b: Byte): (g: nat)
    ensures g < 128 && g == if b < 128 then b else b - 128
  {
    b % 128
  }

  datatype Vli = Vli(value: nat, length: nat)

  /** Reads a number off the front of `s`, of at most `left` bytes; a zero byte may only be
      the first. */
  function ParseVli(s: seq<Byte>, first: bool, left: nat): (r: Option<Vli>)
    ensures r.Some? ==> 1 <= r.value.length <= |s|
    decreases left
  {
    if s == [] || left == 0 || (!first && s[0] == 0) then None
    else if s[0] < 128 then Some(Vli(s[0], 1))
    else match ParseVli(s[1..], false, left - 1)
      case None => None
      case Some(r) => Some(Vli(s[0] - 128 + 128 * r.value, r.length + 1))
  }

  lemma Groups(k: nat)
    requires k > 0
    ensures Pow2(7 * k) == 128 * Pow2(7 * (k - 1))
  {
    assert Pow2(7 * k) == 2 * Pow2(7 * k - 1);
    assert Pow2(7 * k - 1) == 2 * Pow2(7 * k - 2);
    assert Pow2(7 * k - 2) == 2 * Pow2(7 * k - 3);
    assert Pow2(7 * k - 3) == 2 * Pow2(7 * k - 4);
    assert Pow2(7 * k - 4) == 2 * Pow2(7 * k - 5);
    assert Pow2(7 * k - 5) == 2 * Pow2(7 * k - 6);
    assert Pow2(7 * k - 6) == 2 * Pow2(7 * k - 7);
  }

  lemma {:induction false} ParsesItsEncoding(v: nat, rest: seq<Byte>, first: bool, left: nat)
    requires 0 < left && v < Pow2(7 * left) && (first || v > 0)
    ensures ParseVli(EncodeVli(v) + rest, first, left) == Some(Vli(v, |EncodeVli(v)|))
    decreases left
  {
    var s := EncodeVli(v) + rest;
    if v >= 128 {
      Groups(left);
      assert s[1..] == EncodeVli(v / 128) + rest;
      ParsesItsEncoding(v / 128, rest, false, left - 1);
    }
  }

  lemma {:induction false} ParsedIsAnEncoding(s: seq<Byte>, first: bool, left: nat)
    requires ParseVli(s, first, left).Some?
    ensures var r := ParseVli(s, first, left).value;
      r.value < Pow2(7 * left) && EncodeVli(r.value) <= s && r.length == |EncodeVli(r.value)| && (first || r.value > 0)
    decreases left
  {
    Groups(left);
    if s[0] >= 128 {
      ParsedIsAnEncoding(s[1..], false, left - 1);
      var r := ParseVli(s[1..], false, left - 1).value;
      var v := s[0] - 128 + 128 * r.value;
      assert v / 128 == r.value && v % 128 == s[0] - 128;
      assert EncodeVli(v) == [s[0]] + EncodeVli(r.value);
    }
  }

  /** A number below 2^63 is accepted from exactly the byte strings that begin with its one
      encoding, and nothing else is ever accepted. */
  lemma VliIsExact(s: seq<Byte>, v: nat, n: nat)
    ensures ParseVli(s, true, VLI_BYTES) == Some(Vli(v, n)) <==>
      v < Pow2(63) && EncodeVli(v) <= s && n == |EncodeVli(v)|
  {
    hide ParseVli, EncodeVli, Pow2;
    PowersOfSeven();
    if ParseVli(s, true, VLI_BYTES) == Some(Vli(v, n)) {
      ParsedIsAnEncoding(s, true, VLI_BYTES);
    }
    if v < Pow2(63) && EncodeVli(v) <= s {
      ParsesItsEncoding(v, s[|EncodeVli(v)|..], true, VLI_BYTES);
      assert EncodeVli(v) + s[|EncodeVli(v)|..] == s;
    }
  }

  // ---- the reader -----------------------------------------------------------------------------

  /** Adds a higher group of seven bits. */
  lemma GroupJoin(v: nat, b: nat, shift: nat)
    requires v < Pow2(shift) && b < 128
    ensures BitOr(v, Shl(b, shift)) == v + Shl(b, shift) < Pow2(shift + 7)
  {
    PowersOfSeven();
    BitOrDisjoint(v, b, shift);
    ShlBound(b, 7, shift);
  }

  lemma {:induction false} ShlBound(b: nat, m: nat, n: nat)
    requires b < Pow2(m)
    ensures Shl(b, n) + Pow2(n) <= Pow2(m + n)
  {
    if n > 0 {
      ShlBound(b, m, n - 1);
    }
  }

  /** What is still to be added to the `k` groups read so far. */
  function Continue(v: nat, k: nat, shift: nat, r: Option<Vli>): Option<Vli> {
    match r
    case None => None
    case Some(x) => Some(Vli(v + Shl(x.value, shift), x.length + k))
  }

  lemma ContinueStep(v: nat, k: nat, shift: nat, s: seq<Byte>, left: nat)
    requires left > 0 && s != [] && s[0] >= 128
    ensures Continue(v, k, shift, ParseVli(s, k == 0, left))
      == Continue(v + Shl(Group(s[0]), shift), k + 1, shift + 7, ParseVli(s[1..], false, left - 1))
  {
    if r: Vli :| ParseVli(s[1..], false, left - 1) == Some(r) {
      ShlAdd(s[0] - 128, 128 * r.value, shift);
      ShlGroup(r.value, shift);
    }
  }

  lemma ContinueEnds(v: nat, k: nat, shift: nat, s: seq<Byte>, left: nat)
    ensures s == [] || left == 0 || (k > 0 && s[0] == 0) ==> Continue(v, k, shift, ParseVli(s, k == 0, left)) == None
    ensures s != [] && left > 0 && (k == 0 || s[0] != 0) && s[0] < 128 ==>
      Continue(v, k, shift, ParseVli(s, k == 0, left)) == Some(Vli(v + Shl(Group(s[0]), shift), k + 1))
    ensures v == k == shift == 0 ==> Continue(v, k, shift, ParseVli(s, k == 0, left)) == ParseVli(s, true, left)
  {
    if ParseVli(s, k == 0, left).Some? {
      ShlNothing(ParseVli(s, k == 0, left).value.value);
    }
  }

  lemma {:induction false} ShlAdd(a: nat, b: nat, n: nat)
    ensures Shl(a + b, n) == Shl(a, n) + Shl(b, n)
  {
    if n > 0 {
      ShlAdd(a, b, n - 1);
    }
  }

  lemma {:induction false} ShlGroup(a: nat, n: nat)
    ensures Shl(128 * a, n) == Shl(a, n + 7)
  {
    if n == 0 {
      assert Shl(a, 7) == 2 * Shl(a, 6) == 4 * Shl(a, 5) == 8 * Shl(a, 4) == 16 * Shl(a, 3) == 32 * Shl(a, 2) == 64 * Shl(a, 1);
    } else {
      ShlGroup(a, n - 1);
    }
  }

  /** `i` groups lie below, the group at `at + i` has been added to `v`, and `answer` is what
      the whole number will be read as. */
  ghost predicate Reading(s: seq<Byte>, i: nat, shift: nat, v: nat, below: nat, answer: Option<Vli>) {
    && i < VLI_BYTES && i < |s| && (i > 0 ==> s[i] != 0)
    && below < Pow2(shift) && v == below + Shl(Group(s[i]), shift) < Pow2(shift + 7)
    && answer == Continue(below, i, shift, ParseVli(s[i..], i == 0, VLI_BYTES - i))
  }

  lemma ReadingStarts(s: seq<Byte>)
    requires s != []
    ensures Reading(s, 0, 0, Group(s[0]), 0, ParseVli(s, true, VLI_BYTES))
  {
    PowersOfSeven();
    ShlNothing(Group(s[0]));
    ContinueEnds(0, 0, 0, s, VLI_BYTES);
    assert s[0..] == s;
  }

  lemma ReadingStep(s: seq<Byte>, i: nat, shift: nat, v: nat, below: nat, answer: Option<Vli>)
    requires Reading(s, i, shift, v, below, answer) && s[i] >= 128
    ensures i + 1 >= |s| || i + 1 >= 9 || s[i + 1] == 0 ==> answer == None
    ensures i + 1 < |s| && i + 1 < 9 && s[i + 1] != 0 ==>
      Reading(s, i + 1, shift + 7, BitOr(v, Shl(Group(s[i + 1]), shift + 7)), v, answer)
  {
    hide Continue, ParseVli, BitOr, Shl, Pow2;
    ContinueStep(below, i, shift, s[i..], VLI_BYTES - i);
    assert s[i..][1..] == s[i + 1..];
    ContinueEnds(v, i + 1, shift + 7, s[i + 1..], VLI_BYTES - i - 1);
    if i + 1 < |s| {
      GroupJoin(v, Group(s[i + 1]), shift + 7);
    }
  }

  lemma ReadingEnds(s: seq<Byte>, i: nat, shift: nat, v: nat, below: nat, answer: Option<Vli>)
    requires Reading(s, i, shift, v, below, answer) && s[i] < 128
    ensures answer == Some(Vli(v, i + 1))
  {
    ContinueEnds(below, i, shift, s[i..], VLI_BYTES - i);
  }

  /** Reads a number at `at`, within the first `limit` bytes. */
  method XzVli(d: seq<Byte>, limit: nat, at: nat) returns (ok: bool, next: nat, value: nat)
    requires limit <= |d|
    ensures at >= limit ==> !ok
    ensures at < limit ==> match ParseVli(d[at..limit], true, VLI_BYTES)
      case Some(r) => ok && next == at + r.length && value == r.value
      case None => !ok
  {
    ok, next, value := false, at, 0;
    if at >= limit {
      return;
    }
    hide *;
    var s := d[at..limit];
    ghost var answer := ParseVli(s, true, VLI_BYTES);
    BitAnd7(s[0]);
    var v := BitAnd(s[0], 0x7F);
    var shift, i := 0, 0;
    ghost var below: nat := 0;
    ReadingStarts(s);
    while BitAnd(s[i], 0x80) != 0
      invariant i < VLI_BYTES && i < |s|
      invariant Reading(s, i, shift, v, below, answer)
      decreases VLI_BYTES - i
    {
      BitAnd7(s[i]);
      ReadingStep(s, i, shift, v, below, answer);
      i := i + 1;
      below := v;
      if i >= |s| || i >= 9 || s[i] == 0 {
        return;
      }
      shift := shift + 7;
      BitAnd7(s[i]);
      v := BitOr(v, Shl(BitAnd(s[i], 0x7F), shift));
    }
    BitAnd7(s[i]);
    ReadingEnds(s, i, shift, v, below, answer);
    return true, at + i + 1, v;
  }

  lemma ShlNothing(v: nat)
    ensures Shl(v, 0) == v
  {
  }

  lemma PowersOfSeven()
    ensures Pow2(0) == 1 && Pow2(7) == 128
  {
    assert Pow2(4) == 16;
  }

  lemma BitAnd7(b: Byte)
    ensures BitAnd(b, 0x7F) == Group(b) && (BitAnd(b, 0x80) != 0 <==> b >= 128)
  {
    PowersOfSeven();
    BitAndMask(b, 7);
    BitAndTop(b);
    hide BitAnd, Low, Pow2;
    if b < 128 {
      LowKeeps(b, 7);
    } else {
      LowDrops(b - 128, 7);
      LowKeeps(b - 128, 7);
    }
  }

  lemma BitAndTop(b: Byte)
    ensures BitAnd(b, 0x80) != 0 <==> b >= 128
  {
    assert BitAnd(b / 128, 1) == (b / 128) % 2;
    assert BitAnd(b / 64, 2) == 2 * BitAnd(b / 128, 1);
    assert BitAnd(b / 32, 4) == 2 * BitAnd(b / 64, 2);
    assert BitAnd(b / 16, 8) == 2 * BitAnd(b / 32, 4);
    assert BitAnd(b / 8, 16) == 2 * BitAnd(b / 16, 8);
    assert BitAnd(b / 4, 32) == 2 * BitAnd(b / 8, 16);
    assert BitAnd(b / 2, 64) == 2 * BitAnd(b / 4, 32);
  }
}
