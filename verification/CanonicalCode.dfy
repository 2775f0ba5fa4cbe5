/** The canonical Huffman code of section 3.2.2 of RFC 1951: a list of code lengths is the
    whole table, every code follows from it. */
module CanonicalCode {
  import opened Bits

  const MAX_BITS := 15

  type Lengths = ls: seq<nat> | forall i :: 0 <= i < |ls| ==> ls[i] <= MAX_BITS

  /** How many of the symbols below `n` have codes of `len` bits. */
  function CountBelow(ls: Lengths, len: nat, n: nat): (c: nat)
    requires n <= |ls|
    ensures c <= n
  {
    if n == 0 then 0 else CountBelow(ls, len, n - 1) + if ls[n - 1] == len then 1 else 0
  }

  function Count(ls: Lengths, len: nat): nat {
    CountBelow(ls, len, |ls|)
  }

  /** The smallest code of `len` bits. */
  function FirstCode(ls: Lengths, len: nat): nat {
    if len <= 1 then 0 else 2 * (FirstCode(ls, len - 1) + Count(ls, len - 1))
  }

  /** How many codes are shorter than `len` bits. */
  function Shorter(ls: Lengths, len: nat): nat {
    if len <= 1 then 0 else Shorter(ls, len - 1) + Count(ls, len - 1)
  }

  /** Codes of `len` bits still unassigned once all codes up to `len` bits are. */
  function Space(ls: Lengths, len: nat): int {
    if len == 0 then 1 else 2 * Space(ls, len - 1) - Count(ls, len)
  }

  /** No length claims more codes than the code space has left. */
  ghost predicate Kraft(ls: Lengths) {
    forall len :: 0 <= len <= MAX_BITS ==> Space(ls, len) >= 0
  }

  predicate Coded(ls: Lengths, sym: nat) {
    sym < |ls| && ls[sym] != 0
  }

  function Code(ls: Lengths, sym: nat): nat
    requires Coded(ls, sym)
  {
    FirstCode(ls, ls[sym]) + CountBelow(ls, ls[sym], sym)
  }

  /** The code as it is transmitted, most significant bit first. */
  function CodeBits(ls: Lengths, sym: nat): (s: BitString)
    requires Coded(ls, sym)
    ensures |s| == ls[sym]
  {
    MsbBits(Code(ls, sym), ls[sym])
  }

  ghost predicate Match(ls: Lengths, s: BitString, sym: nat) {
    Coded(ls, sym) && CodeBits(ls, sym) <= s
  }

  // ---- counting -----------------------------------------------------------------

  lemma {:induction false} CountBelowMonotone(ls: Lengths, len: nat, m: nat, n: nat)
    requires m <= n <= |ls|
    ensures CountBelow(ls, len, m) <= CountBelow(ls, len, n)
  {
    if m < n {
      CountBelowMonotone(ls, len, m, n - 1);
    }
  }

  /** A symbol's rank among the codes of its length is below their number. */
  lemma RankBound(ls: Lengths, sym: nat)
    requires sym < |ls|
    ensures CountBelow(ls, ls[sym], sym) < Count(ls, ls[sym])
  {
    CountBelowMonotone(ls, ls[sym], sym + 1, |ls|);
  }

  lemma RankIncreases(ls: Lengths, a: nat, b: nat)
    requires a < b < |ls| && ls[a] == ls[b]
    ensures CountBelow(ls, ls[a], a) < CountBelow(ls, ls[b], b)
  {
    CountBelowMonotone(ls, ls[a], a + 1, b);
  }

  /** Every rank below the count is taken. */
  lemma {:induction false} SymbolWithRank(ls: Lengths, len: nat, rank: nat, n: nat) returns (sym: nat)
    requires n <= |ls| && rank < CountBelow(ls, len, n)
    ensures sym < n && ls[sym] == len && CountBelow(ls, len, sym) == rank
  {
    if ls[n - 1] == len && CountBelow(ls, len, n - 1) == rank {
      sym := n - 1;
    } else {
      sym := SymbolWithRank(ls, len, rank, n - 1);
    }
  }

  // ---- the code space -------------------------------------------------------------

  lemma {:induction false} SpaceIdentity(ls: Lengths, len: nat)
    requires len >= 1
    ensures FirstCode(ls, len) + Count(ls, len) + Space(ls, len) == Pow2(len)
  {
    if len > 1 {
      SpaceIdentity(ls, len - 1);
    }
  }

  lemma CodeFits(ls: Lengths, sym: nat)
    requires Kraft(ls) && Coded(ls, sym)
    ensures Code(ls, sym) < FirstCode(ls, ls[sym]) + Count(ls, ls[sym]) <= Pow2(ls[sym])
  {
    SpaceIdentity(ls, ls[sym]);
    RankBound(ls, sym);
  }

  /** The Kraft sum in units of `2^-15`. */
  function KraftSum(ls: Lengths): nat {
    if ls == [] then 0
    else KraftSum(ls[..|ls| - 1]) + if ls[|ls| - 1] == 0 then 0 else Pow2(MAX_BITS - ls[|ls| - 1])
  }

  lemma {:induction false} CountBelowPrefix(ls: Lengths, len: nat, n: nat, m: nat)
    requires n <= m <= |ls|
    ensures CountBelow(ls[..m], len, n) == CountBelow(ls, len, n)
  {
    if n > 0 {
      CountBelowPrefix(ls, len, n - 1, m);
    }
  }

  lemma {:induction false} SpaceOfExtension(ls: Lengths, len: nat)
    requires ls != [] && len <= MAX_BITS
    ensures var last := ls[|ls| - 1];
      Space(ls, len) == Space(ls[..|ls| - 1], len) - if last == 0 || last > len then 0 else Pow2(len - last)
  {
    if len > 0 {
      SpaceOfExtension(ls, len - 1);
      CountBelowPrefix(ls, len, |ls| - 1, |ls| - 1);
    }
  }

  lemma {:induction false} SpaceOfEmpty(len: nat)
    ensures Space([], len) == Pow2(len)
  {
    if len > 0 {
      SpaceOfEmpty(len - 1);
    }
  }

  lemma {:induction false} SpaceIsKraftSum(ls: Lengths)
    ensures Space(ls, MAX_BITS) == Pow2(MAX_BITS) - KraftSum(ls)
  {
    if ls == [] {
      SpaceOfEmpty(MAX_BITS);
    } else {
      SpaceIsKraftSum(ls[..|ls| - 1]);
      SpaceOfExtension(ls, MAX_BITS);
    }
  }

  lemma {:induction false} SpaceStaysNegative(ls: Lengths, m: nat, n: nat)
    requires m <= n && Space(ls, m) < 0
    ensures Space(ls, n) < 0
  {
    if m < n {
      SpaceStaysNegative(ls, m, n - 1);
    }
  }

  /** The level-by-level test is the Kraft inequality: the codes' shares of the code space
      sum to at most one. */
  lemma KraftInequality(ls: Lengths)
    ensures Kraft(ls) <==> KraftSum(ls) <= Pow2(MAX_BITS)
  {
    SpaceIsKraftSum(ls);
    forall len | 0 <= len <= MAX_BITS && Space(ls, len) < 0
      ensures Space(ls, MAX_BITS) < 0
    {
      SpaceStaysNegative(ls, len, MAX_BITS);
    }
  }

  // ---- prefix freedom ---------------------------------------------------------------

  lemma MsbValueExtend(s: BitString, len: nat)
    requires len < |s|
    ensures MsbValue(s[..len + 1]) == 2 * MsbValue(s[..len]) + BitOf(s[len])
  {
    assert s[..len + 1][..len] == s[..len];
  }

  /** A code is a prefix of a bit string exactly when the string starts with its value. */
  lemma MatchIsValue(ls: Lengths, s: BitString, sym: nat)
    requires Kraft(ls) && Coded(ls, sym)
    ensures Match(ls, s, sym) <==> ls[sym] <= |s| && MsbValue(s[..ls[sym]]) == Code(ls, sym)
  {
    CodeFits(ls, sym);
    var len := ls[sym];
    MsbValueOfBits(Code(ls, sym), len);
    if len <= |s| {
      MsbBitsOfValue(s[..len]);
      if CodeBits(ls, sym) <= s {
        assert s[..len] == CodeBits(ls, sym);
      }
    }
  }

  /** A string that falls below the first code of one length stays below the first code of
      every greater length. */
  lemma {:induction false} StaysBelow(ls: Lengths, s: BitString, m: nat, n: nat)
    requires 1 <= m < n <= |s|
    requires MsbValue(s[..m]) < FirstCode(ls, m) + Count(ls, m)
    ensures MsbValue(s[..n]) < FirstCode(ls, n)
  {
    MsbValueExtend(s, n - 1);
    if m < n - 1 {
      StaysBelow(ls, s, m, n - 1);
    }
  }

  /** No two codes start the same bit string: the code is prefix-free. */
  lemma MatchUnique(ls: Lengths, s: BitString, a: nat, b: nat)
    requires Kraft(ls) && Match(ls, s, a) && Match(ls, s, b)
    ensures a == b
  {
    MatchIsValue(ls, s, a);
    MatchIsValue(ls, s, b);
    if ls[a] < ls[b] {
      CodeFits(ls, a);
      StaysBelow(ls, s, ls[a], ls[b]);
    } else if ls[b] < ls[a] {
      CodeFits(ls, b);
      StaysBelow(ls, s, ls[b], ls[a]);
    } else if a < b {
      RankIncreases(ls, a, b);
    } else if b < a {
      RankIncreases(ls, b, a);
    }
  }

  // ---- the sorted symbol table -------------------------------------------------------

  /** Where a symbol stands when symbols are sorted by (length, symbol). */
  function Position(ls: Lengths, sym: nat): nat
    requires Coded(ls, sym)
  {
    Shorter(ls, ls[sym]) + CountBelow(ls, ls[sym], sym)
  }

  lemma {:induction false} ShorterMonotone(ls: Lengths, m: nat, n: nat)
    requires 1 <= m < n
    ensures Shorter(ls, m) + Count(ls, m) <= Shorter(ls, n)
  {
    if m < n - 1 {
      ShorterMonotone(ls, m, n - 1);
    }
  }

  lemma PositionInjective(ls: Lengths, a: nat, b: nat)
    requires Coded(ls, a) && Coded(ls, b) && a != b
    ensures Position(ls, a) != Position(ls, b)
  {
    RankBound(ls, a);
    RankBound(ls, b);
    if ls[a] < ls[b] {
      ShorterMonotone(ls, ls[a], ls[b]);
    } else if ls[b] < ls[a] {
      ShorterMonotone(ls, ls[b], ls[a]);
    } else if a < b {
      RankIncreases(ls, a, b);
    } else {
      RankIncreases(ls, b, a);
    }
  }

  /** Symbols below `n` whose codes have between 1 and `len - 1` bits. */
  function ShorterBelow(ls: Lengths, len: nat, n: nat): nat
    requires n <= |ls|
  {
    if len <= 1 then 0 else ShorterBelow(ls, len - 1, n) + CountBelow(ls, len - 1, n)
  }

  lemma {:induction false} ShorterBelowStep(ls: Lengths, len: nat, n: nat)
    requires 0 < n <= |ls|
    ensures ShorterBelow(ls, len, n) == ShorterBelow(ls, len, n - 1) + if 0 < ls[n - 1] < len then 1 else 0
  {
    if len > 1 {
      ShorterBelowStep(ls, len - 1, n);
    }
  }

  lemma {:induction false} ShorterBelowBound(ls: Lengths, len: nat, n: nat)
    requires n <= |ls|
    ensures ShorterBelow(ls, len, n) <= n
  {
    if n == 0 {
      ShorterBelowZero(ls, len);
    } else {
      ShorterBelowBound(ls, len, n - 1);
      ShorterBelowStep(ls, len, n);
    }
  }

  lemma {:induction false} ShorterBelowZero(ls: Lengths, len: nat)
    ensures ShorterBelow(ls, len, 0) == 0
  {
    if len > 1 {
      ShorterBelowZero(ls, len - 1);
    }
  }

  lemma {:induction false} ShorterIsShorterBelow(ls: Lengths, len: nat)
    ensures Shorter(ls, len) == ShorterBelow(ls, len, |ls|)
  {
    if len > 1 {
      ShorterIsShorterBelow(ls, len - 1);
    }
  }

  lemma ShorterBound(ls: Lengths, len: nat)
    ensures Shorter(ls, len) <= |ls|
  {
    ShorterIsShorterBelow(ls, len);
    ShorterBelowBound(ls, len, |ls|);
  }

  lemma PositionBound(ls: Lengths, sym: nat)
    requires Coded(ls, sym)
    ensures Position(ls, sym) < |ls|
  {
    RankBound(ls, sym);
    ShorterBound(ls, ls[sym] + 1);
  }
}
