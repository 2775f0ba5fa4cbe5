/** The symbols of a compressed block and what they expand to (sections 2 and 3.2.5 of
    RFC 1951). */
module Lz77 {
  import opened Options
  import opened Bits
  import opened HuffmanTables

  const LEN_BASE: seq<nat> := [
    3, 4, 5, 6, 7, 8, 9, 10, 11, 13, 15, 17, 19, 23, 27, 31, 35, 43, 51, 59,
    67, 83, 99, 115, 131, 163, 195, 227, 258]
  const LEN_EXTRA: seq<nat> := [
    0, 0, 0, 0, 0, 0, 0, 0, 1, 1, 1, 1, 2, 2, 2, 2, 3, 3, 3, 3,
    4, 4, 4, 4, 5, 5, 5, 5, 0]
  const DIST_BASE: seq<nat> := [
    1, 2, 3, 4, 5, 7, 9, 13, 17, 25, 33, 49, 65, 97, 129, 193, 257, 385, 513,
    769, 1025, 1537, 2049, 3073, 4097, 6145, 8193, 12289, 16385, 24577]
  const DIST_EXTRA: seq<nat> := [
    0, 0, 0, 0, 1, 1, 2, 2, 3, 3, 4, 4, 5, 5, 6, 6, 7, 7, 8, 8,
    9, 9, 10, 10, 11, 11, 12, 12, 13, 13]

  const LEN_CODES := 29
  const DIST_CODES := 30

  function LenBase(c: nat): nat
    requires c < LEN_CODES
  {
    LEN_BASE[c]
  }

  function LenExtra(c: nat): nat
    requires c < LEN_CODES
  {
    LEN_EXTRA[c]
  }

  function DistBase(c: nat): nat
    requires c < DIST_CODES
  {
    DIST_BASE[c]
  }

  function DistExtra(c: nat): nat
    requires c < DIST_CODES
  {
    DIST_EXTRA[c]
  }

  /** A literal byte, or a back-reference by its length and distance codes with the values
      of their extra bits. */
  datatype Token =
    | Literal(b: Byte)
    | Match(lengthCode: nat, lengthExtra: nat, distCode: nat, distExtra: nat)

  predicate ValidToken(t: Token) {
    t.Match? ==>
      && t.lengthCode < LEN_CODES && t.lengthExtra < Pow2(LenExtra(t.lengthCode))
      && t.distCode < DIST_CODES && t.distExtra < Pow2(DistExtra(t.distCode))
  }

  function MatchLength(t: Token): nat
    requires t.Match? && ValidToken(t)
  {
    LenBase(t.lengthCode) + t.lengthExtra
  }

  function MatchDistance(t: Token): nat
    requires t.Match? && ValidToken(t)
  {
    DistBase(t.distCode) + t.distExtra
  }

  /** Copies `length` bytes from `distance` back, one at a time, so that the copy may read
      bytes it has just written. */
  function CopyBack(out: seq<Byte>, distance: nat, length: nat): (r: seq<Byte>)
    requires 1 <= distance <= |out|
    ensures |r| == |out| + length
    decreases length
  {
    if length == 0 then out else CopyBack(out + [out[|out| - distance]], distance, length - 1)
  }

  /** The bytes a token sequence stands for, appended to what was produced before; nothing
      when a back-reference reaches before the first byte. */
  function Expand(ts: seq<Token>, out: seq<Byte>): (r: Option<seq<Byte>>)
    requires forall t :: t in ts ==> ValidToken(t)
    decreases |ts|
  {
    if ts == [] then Some(out)
    else match ts[0]
      case Literal(b) => Expand(ts[1..], out + [b])
      case Match(_, _, _, _) =>
        var distance := MatchDistance(ts[0]);
        if 1 <= distance <= |out| then Expand(ts[1..], CopyBack(out, distance, MatchLength(ts[0])))
        else None
  }

  /** The copy keeps what was there and continues it with period `distance`: a reference
      longer than its distance repeats the last `distance` bytes. */
  lemma {:induction false} CopyBackIsPeriodic(out: seq<Byte>, distance: nat, length: nat)
    requires 1 <= distance <= |out|
    ensures var r := CopyBack(out, distance, length);
      && out <= r
      && forall i :: |out| <= i < |r| ==> r[i] == r[i - distance]
    decreases length
  {
    if length > 0 {
      var next := out + [out[|out| - distance]];
      CopyBackIsPeriodic(next, distance, length - 1);
      var r := CopyBack(next, distance, length - 1);
      assert r[|out|] == next[|out|] && r[|out| - distance] == next[|out| - distance];
      assert out == next[..|out|];
    }
  }

  /** A copy that does not overlap itself is a plain block copy. */
  lemma CopyBackWithoutOverlap(out: seq<Byte>, distance: nat, length: nat)
    requires 1 <= distance <= |out| && length <= distance
    ensures CopyBack(out, distance, length) == out + out[|out| - distance..][..length]
  {
    CopyBackIsPeriodic(out, distance, length);
    var r := CopyBack(out, distance, length);
    forall i | |out| <= i < |r|
      ensures r[i] == (out + out[|out| - distance..][..length])[i]
    {
      assert r[i - distance] == out[i - distance];
    }
  }

  lemma {:induction false} ExpandKeepsPrefix(ts: seq<Token>, out: seq<Byte>)
    requires forall t :: t in ts ==> ValidToken(t)
    ensures var r := Expand(ts, out); r.Some? ==> out <= r.value
    decreases |ts|
  {
    if ts != [] {
      match ts[0]
      case Literal(b) => ExpandKeepsPrefix(ts[1..], out + [b]);
      case Match(_, _, _, _) =>
        var distance := MatchDistance(ts[0]);
        if 1 <= distance <= |out| {
          CopyBackIsPeriodic(out, distance, MatchLength(ts[0]));
          ExpandKeepsPrefix(ts[1..], CopyBack(out, distance, MatchLength(ts[0])));
        }
    }
  }

  // ---- every length and distance has a token ------------------------------------------

  lemma PowersUpTo13()
    ensures Pow2(0) == 1 && Pow2(1) == 2 && Pow2(2) == 4 && Pow2(3) == 8 && Pow2(4) == 16
    ensures Pow2(5) == 32 && Pow2(6) == 64 && Pow2(7) == 128 && Pow2(8) == 256 && Pow2(9) == 512
    ensures Pow2(10) == 1024 && Pow2(11) == 2048 && Pow2(12) == 4096 && Pow2(13) == 8192
  {
    assert Pow2(3) == 2 * Pow2(2) && Pow2(6) == 8 * Pow2(3) && Pow2(9) == 8 * Pow2(6);
    assert Pow2(12) == 8 * Pow2(9);
  }

  /** The ranges of consecutive length codes touch (code 284 overlaps 285 by one length),
      and so do those of the distance codes. */
  lemma LengthRangesTouch(c: nat)
    requires c < LEN_CODES - 1
    ensures LenBase(c + 1) <= LenBase(c) + Pow2(LenExtra(c))
  {
    PowersUpTo13();
  }

  lemma DistRangesTouch(c: nat)
    requires c < DIST_CODES - 1
    ensures DistBase(c + 1) == DistBase(c) + Pow2(DistExtra(c))
  {
    PowersUpTo13();
  }

  lemma {:induction false} LengthCodeFor(length: nat, c: nat) returns (code: nat)
    requires c < LEN_CODES && 3 <= length
    requires c == LEN_CODES - 1 ==> length == 258
    requires c < LEN_CODES - 1 ==> length < LenBase(c + 1)
    ensures code <= c && LenBase(code) <= length < LenBase(code) + Pow2(LenExtra(code))
  {
    if c < LEN_CODES - 1 {
      LengthRangesTouch(c);
    }
    if c > 0 {
      LengthRangesTouch(c - 1);
    }
    if c == LEN_CODES - 1 {
      code := c;
    } else if LenBase(c) <= length {
      code := c;
    } else {
      code := LengthCodeFor(length, c - 1);
    }
  }

  lemma {:induction false} DistCodeFor(distance: nat, c: nat) returns (code: nat)
    requires c < DIST_CODES && 1 <= distance < DistBase(c) + Pow2(DistExtra(c))
    ensures code <= c && DistBase(code) <= distance < DistBase(code) + Pow2(DistExtra(code))
  {
    if DistBase(c) <= distance {
      code := c;
    } else {
      DistRangesTouch(c - 1);
      code := DistCodeFor(distance, c - 1);
    }
  }

  /** The tables cover every length from 3 to 258 and every distance from 1 to 32768. */
  lemma EveryMatchHasAToken(length: nat, distance: nat) returns (t: Token)
    requires 3 <= length <= 258 && 1 <= distance <= 32768
    ensures t.Match? && ValidToken(t) && MatchLength(t) == length && MatchDistance(t) == distance
  {
    PowersUpTo13();
    var lc := LengthCodeFor(length, if length == 258 then LEN_CODES - 1 else LEN_CODES - 2);
    var dc := DistCodeFor(distance, DIST_CODES - 1);
    t := Match(lc, length - LenBase(lc), dc, distance - DistBase(dc));
  }

  lemma LengthRange(c: nat, extra: nat)
    requires c < LEN_CODES && extra < Pow2(LenExtra(c))
    ensures 3 <= LenBase(c) + extra <= 258
  {
    PowersUpTo13();
  }

  lemma DistanceRange(c: nat, extra: nat)
    requires c < DIST_CODES && extra < Pow2(DistExtra(c))
    ensures 1 <= DistBase(c) + extra <= 32768
  {
    PowersUpTo13();
  }

  /** No token denotes anything outside those ranges. */
  lemma TokenRanges(t: Token)
    requires t.Match? && ValidToken(t)
    ensures 3 <= MatchLength(t) <= 258 && 1 <= MatchDistance(t) <= 32768
  {
    LengthRange(t.lengthCode, t.lengthExtra);
    DistanceRange(t.distCode, t.distExtra);
  }
}
