/** What the tables of DEFLATE must be, said without the tables: where a transmitted length
    lands, which lengths and distances a code covers, what the fixed codes are, and in which
    order codes are given out. */
module DeflateLaws {
  import opened Options
  import opened Bits
  import opened CanonicalCode
  import opened HuffmanTables
  import opened Lz77
  import opened DeflateFormat

  // ---- the order of the code-length code ----------------------------------------------------------

  /** The symbol whose length is transmitted in place `k`: the three repeats, zero, and then
      outward from eight, up and down in turn. */
  function Transmitted(k: nat): (sym: nat)
    requires k < 19
    ensures sym < 19
  {
    if k < 3 then 16 + k
    else if k == 3 then 0
    else if k % 2 == 0 then 8 + (k - 4) / 2
    else 8 - (k - 3) / 2
  }

  lemma TransmittedOnce(i: nat, j: nat)
    requires i < 19 && j < 19 && Transmitted(i) == Transmitted(j)
    ensures i == j
  {
  }

  lemma OrderIs(k: nat)
    requires k < 19
    ensures CLC_ORDER[k] == Transmitted(k)
  {
  }

  /** Each transmitted length becomes the length of its own symbol; all others are zero. */
  lemma {:induction false} ClcLengthsLand(order: seq<nat>)
    requires |order| <= 19 && forall i :: 0 <= i < |order| ==> order[i] < 8
    ensures forall k :: 0 <= k < |order| ==> ClcLengths(order)[Transmitted(k)] == order[k]
    ensures forall k :: |order| <= k < 19 ==> ClcLengths(order)[Transmitted(k)] == 0
  {
    if order != [] {
      var n := |order| - 1;
      ClcLengthsLand(order[..n]);
      OrderIs(n);
      forall k | 0 <= k < 19 && k != n
        ensures Transmitted(k) != Transmitted(n)
      {
        if Transmitted(k) == Transmitted(n) {
          TransmittedOnce(k, n);
        }
      }
      hide Transmitted;
    }
  }

  // ---- lengths and distances ----------------------------------------------------------------------

  /** Eight codes for one length each; then four to every number of extra bits, each beginning
      where the one before ends; and 258 on its own. */
  lemma LengthCodesAre(c: nat)
    requires c < 29
    ensures c < 8 ==> LenBase(c) == c + 3 && LenExtra(c) == 0
    ensures 8 <= c < 28 ==> LenExtra(c) == (c - 4) / 4 && LenBase(c) == (4 + c % 4) * Pow2((c - 4) / 4) + 3
    ensures c == 28 ==> LenBase(c) == 258 && LenExtra(c) == 0
  {
    PowersUpTo13();
  }

  lemma DistanceCodesAre(c: nat)
    requires c < 30
    ensures c < 4 ==> DistBase(c) == c + 1 && DistExtra(c) == 0
    ensures c >= 4 ==> DistExtra(c) == (c - 2) / 2 && DistBase(c) == (2 + c % 2) * Pow2((c - 2) / 2) + 1
  {
    PowersUpTo13();
  }

  // ---- counting over runs of equal lengths --------------------------------------------------------

  lemma {:induction false} CountInFirst(a: Lengths, b: Lengths, len: nat, n: nat)
    requires n <= |a|
    ensures CountBelow(a + b, len, n) == CountBelow(a, len, n)
  {
    if n > 0 {
      CountInFirst(a, b, len, n - 1);
    }
  }

  lemma {:induction false} CountInSecond(a: Lengths, b: Lengths, len: nat, n: nat)
    requires n <= |b|
    ensures CountBelow(a + b, len, |a| + n) == Count(a, len) + CountBelow(b, len, n)
  {
    if n == 0 {
      CountInFirst(a, b, len, |a|);
    } else {
      CountInSecond(a, b, len, n - 1);
    }
  }

  lemma {:induction false} CountInFill(n: nat, v: nat, len: nat, k: nat)
    requires k <= n && v <= MAX_BITS
    ensures CountBelow(Fill(n, v), len, k) == if len == v then k else 0
  {
    if k > 0 {
      CountInFill(n, v, len, k - 1);
    }
  }

  // ---- the fixed codes ------------------------------------------------------------------------------

  /** How many of the first `n` symbols have fixed codes of `len` bits. */
  function FixedCount(len: nat, n: nat): nat
  {
    if len == 7 then if n <= 256 then 0 else if n <= 280 then n - 256 else 24
    else if len == 8 then if n <= 144 then n else if n <= 280 then 144 else n - 136
    else if len == 9 then if n <= 144 then 0 else if n <= 256 then n - 144 else 112
    else 0
  }

  lemma FixedCounts(len: nat, n: nat)
    requires n <= 288
    ensures |FixedLiteral()| == 288 && CountBelow(FixedLiteral(), len, n) == FixedCount(len, n)
  {
    var a, b, c, d := Fill(144, 8), Fill(112, 9), Fill(24, 7), Fill(8, 8);
    CountInFill(144, 8, len, if n <= 144 then n else 144);
    CountInFill(112, 9, len, if n <= 144 then 0 else if n <= 256 then n - 144 else 112);
    CountInFill(24, 7, len, if n <= 256 then 0 else if n <= 280 then n - 256 else 24);
    CountInFill(8, 8, len, if n <= 280 then 0 else n - 280);
    hide CountBelow;
    if n <= 144 {
      CountInFirst(a, b, len, n);
      CountInFirst(a + b, c, len, n);
      CountInFirst(a + b + c, d, len, n);
    } else if n <= 256 {
      CountInSecond(a, b, len, n - 144);
      CountInFirst(a + b, c, len, n);
      CountInFirst(a + b + c, d, len, n);
    } else if n <= 280 {
      CountInSecond(a, b, len, 112);
      CountInSecond(a + b, c, len, n - 256);
      CountInFirst(a + b + c, d, len, n);
    } else {
      CountInSecond(a, b, len, 112);
      CountInSecond(a + b, c, len, 24);
      CountInSecond(a + b + c, d, len, n - 280);
    }
  }

  lemma FixedFirsts()
    ensures FirstCode(FixedLiteral(), 7) == 0 && FirstCode(FixedLiteral(), 8) == 48
    ensures FirstCode(FixedLiteral(), 9) == 400
  {
    var f := FixedLiteral();
    FixedCounts(1, 288);
    FixedCounts(2, 288);
    FixedCounts(3, 288);
    FixedCounts(4, 288);
    FixedCounts(5, 288);
    FixedCounts(6, 288);
    FixedCounts(7, 288);
    FixedCounts(8, 288);
    hide CountBelow, FixedLiteral;
    assert FirstCode(f, 1) == 0;
    assert FirstCode(f, 3) == 2 * FirstCode(f, 2);
    assert FirstCode(f, 5) == 2 * FirstCode(f, 4);
    assert FirstCode(f, 7) == 2 * FirstCode(f, 6);
  }

  /** The fixed literal codes: 144 of eight bits from 00110000 on, 112 of nine from 110010000,
      24 of seven from 0000000, eight of eight from 11000000. */
  lemma FixedCodesAre(sym: nat)
    requires sym < 288
    ensures Coded(FixedLiteral(), sym)
    ensures sym < 144 ==> CodeBits(FixedLiteral(), sym) == MsbBits(0x30 + sym, 8)
    ensures 144 <= sym < 256 ==> CodeBits(FixedLiteral(), sym) == MsbBits(0x190 + sym - 144, 9)
    ensures 256 <= sym < 280 ==> CodeBits(FixedLiteral(), sym) == MsbBits(sym - 256, 7)
    ensures 280 <= sym ==> CodeBits(FixedLiteral(), sym) == MsbBits(0xC0 + sym - 280, 8)
  {
    FixedFirsts();
    FixedCounts(FixedLiteral()[sym], sym);
    hide MsbBits, CountBelow, FirstCode;
  }

  /** The fixed distance code of symbol `c` is `c` in five bits. */
  lemma FixedDistancesAre(c: nat)
    requires c < 30
    ensures Coded(FixedDistance(), c) && CodeBits(FixedDistance(), c) == MsbBits(c, 5)
  {
    CountInFill(30, 5, 1, 30);
    CountInFill(30, 5, 2, 30);
    CountInFill(30, 5, 3, 30);
    CountInFill(30, 5, 4, 30);
    CountInFill(30, 5, 5, c);
    hide MsbBits, CountBelow;
  }

  // ---- the order of codes -----------------------------------------------------------------------------

  /** Shorter codes come first, and codes of one length in the order of their symbols. */
  predicate CodedBefore(ls: Lengths, a: nat, b: nat)
    requires Coded(ls, a) && Coded(ls, b)
  {
    ls[a] < ls[b] || (ls[a] == ls[b] && a < b)
  }

  ghost predicate Next(ls: Lengths, a: nat, b: nat)
    requires Coded(ls, a) && Coded(ls, b)
  {
    && CodedBefore(ls, a, b)
    && forall c :: 0 <= c < |ls| && Coded(ls, c) ==> !(CodedBefore(ls, a, c) && CodedBefore(ls, c, b))
  }

  lemma {:induction false} NoneBetween(ls: Lengths, len: nat, m: nat, n: nat)
    requires m <= n <= |ls| && forall c :: m <= c < n ==> ls[c] != len
    ensures CountBelow(ls, len, n) == CountBelow(ls, len, m)
  {
    if m < n {
      NoneBetween(ls, len, m, n - 1);
    }
  }

  /** Lengths without codes only double the first code. */
  lemma {:induction false} Doubling(ls: Lengths, m: nat, n: nat)
    requires 1 <= m <= n && forall len :: m < len < n ==> Count(ls, len) == 0
    ensures n > m ==> FirstCode(ls, n) == Pow2(n - m) * (FirstCode(ls, m) + Count(ls, m))
  {
    if n == m + 1 {
      assert Pow2(1) == 2;
    } else if n > m + 1 {
      Doubling(ls, m, n - 1);
      assert Pow2(n - m) == 2 * Pow2(n - 1 - m);
      Twice(Pow2(n - 1 - m), FirstCode(ls, m) + Count(ls, m));
    }
  }

  lemma Commute(p: nat, x: nat)
    ensures p * x == x * p
  {
  }

  lemma Twice(p: nat, x: nat)
    ensures 2 * (p * x) == 2 * p * x
  {
  }

  lemma NextOfSameLength(ls: Lengths, a: nat, b: nat)
    requires Coded(ls, a) && Coded(ls, b) && Next(ls, a, b) && ls[a] == ls[b]
    ensures CountBelow(ls, ls[a], b) == CountBelow(ls, ls[a], a) + 1
  {
    forall c | a < c < b ensures ls[c] != ls[a] {
      assert Coded(ls, c) ==> !(CodedBefore(ls, a, c) && CodedBefore(ls, c, b));
    }
    NoneBetween(ls, ls[a], a + 1, b);
  }

  lemma NextIsLonger(ls: Lengths, a: nat, b: nat, c: nat)
    requires Coded(ls, a) && Coded(ls, b) && Next(ls, a, b) && c < |ls|
    ensures !(ls[a] < ls[c] < ls[b])
    ensures ls[a] < ls[b] && a < c ==> ls[c] != ls[a]
    ensures ls[a] < ls[b] && c < b ==> ls[c] != ls[b]
  {
    assert Coded(ls, c) ==> !(CodedBefore(ls, a, c) && CodedBefore(ls, c, b));
  }

  lemma NextOfLongerLength(ls: Lengths, a: nat, b: nat)
    requires Coded(ls, a) && Coded(ls, b) && Next(ls, a, b) && ls[a] < ls[b]
    ensures Count(ls, ls[a]) == CountBelow(ls, ls[a], a) + 1
    ensures forall len :: ls[a] < len < ls[b] ==> Count(ls, len) == 0
    ensures CountBelow(ls, ls[b], b) == 0
  {
    forall c | 0 <= c < |ls|
      ensures !(ls[a] < ls[c] < ls[b]) && (a < c ==> ls[c] != ls[a]) && (c < b ==> ls[c] != ls[b])
    {
      NextIsLonger(ls, a, b, c);
    }
    hide Next, CodedBefore;
    NoneBetween(ls, ls[a], a + 1, |ls|);
    NoneBetween(ls, ls[b], 0, b);
    forall len | ls[a] < len < ls[b] ensures Count(ls, len) == 0 {
      NoneBetween(ls, len, 0, |ls|);
    }
  }

  /** The codes are given out in order without a gap: each is the one before, plus one, followed
      by as many zeros as it is longer. */
  lemma CodesFollow(ls: Lengths, a: nat, b: nat)
    requires Coded(ls, a) && Coded(ls, b) && Next(ls, a, b)
    ensures ls[a] <= ls[b] && Code(ls, b) == (Code(ls, a) + 1) * Pow2(ls[b] - ls[a])
  {
    assert ls[a] <= ls[b];
    var d := ls[b] - ls[a];
    if d == 0 {
      NextOfSameLength(ls, a, b);
      assert Pow2(d) == 1;
      hide *;
    } else {
      NextOfLongerLength(ls, a, b);
      assert Code(ls, b) == FirstCode(ls, ls[b]);
      assert Code(ls, a) + 1 == FirstCode(ls, ls[a]) + Count(ls, ls[a]);
      Doubling(ls, ls[a], ls[b]);
      hide *;
      Commute(Pow2(d), Code(ls, a) + 1);
    }
  }

  /** The first code of all is zero. */
  lemma CodesStartAtZero(ls: Lengths, a: nat)
    requires Coded(ls, a) && forall c :: 0 <= c < |ls| && Coded(ls, c) ==> !CodedBefore(ls, c, a)
    ensures Code(ls, a) == 0
  {
    forall c | 0 <= c < |ls|
      ensures ls[c] != 0 ==> ls[c] >= ls[a]
      ensures c < a ==> ls[c] != ls[a]
    {
      assert ls[c] != 0 ==> Coded(ls, c);
    }
    hide Coded, CodedBefore;
    NoneBetween(ls, ls[a], 0, a);
    NothingShorter(ls, ls[a]);
  }

  lemma {:induction false} NothingShorter(ls: Lengths, n: nat)
    requires forall c :: 0 <= c < |ls| && ls[c] != 0 ==> ls[c] >= n
    ensures FirstCode(ls, n) == 0
  {
    if n > 1 {
      NoneBetween(ls, n - 1, 0, |ls|);
      NothingShorter(ls, n - 1);
    }
  }

  ghost predicate Last(ls: Lengths, z: nat)
    requires Coded(ls, z)
  {
    forall c :: 0 <= c < |ls| && Coded(ls, c) ==> !CodedBefore(ls, z, c)
  }

  lemma {:induction false} SpaceBeyond(ls: Lengths, m: nat, n: nat)
    requires m <= n && forall len :: m < len <= n ==> Count(ls, len) == 0
    ensures Space(ls, n) >= 0 <==> Space(ls, m) >= 0
  {
    if m < n {
      SpaceBeyond(ls, m, n - 1);
    }
  }

  /** Lengths are a code exactly when the last code given out is one of its length. */
  lemma LastCodeFits(ls: Lengths, z: nat)
    requires Coded(ls, z) && Last(ls, z)
    ensures Kraft(ls) <==> Code(ls, z) < Pow2(ls[z])
  {
    var n := ls[z];
    forall c | 0 <= c < |ls|
      ensures ls[c] <= n && (z < c ==> ls[c] != n)
    {
      assert Coded(ls, c) ==> !CodedBefore(ls, z, c);
    }
    hide Last, CodedBefore;
    assert CountBelow(ls, n, z + 1) == CountBelow(ls, n, z) + 1;
    NoneBetween(ls, n, z + 1, |ls|);
    forall len | n < len <= MAX_BITS ensures Count(ls, len) == 0 {
      NoneBetween(ls, len, 0, |ls|);
    }
    SpaceIdentity(ls, n);
    SpaceBeyond(ls, n, MAX_BITS);
    if Space(ls, MAX_BITS) >= 0 {
      forall len | 0 <= len <= MAX_BITS ensures Space(ls, len) >= 0 {
        if Space(ls, len) < 0 {
          SpaceStaysNegative(ls, len, MAX_BITS);
        }
      }
    }
  }

  // ---- repeats ------------------------------------------------------------------------------------------

  /** Three to six copies of the last length, three to ten zeros, eleven to 138 zeros. */
  lemma RepeatsAre(op: LengthOp, acc: Lengths)
    requires ValidOp(op)
    ensures op.One? ==> ApplyOp(op, acc) == Some(acc + [op.length]) && OpSymbol(op) == op.length && OpExtraBits(op) == []
    ensures op.Repeat? ==> OpSymbol(op) == 16 && |OpExtraBits(op)| == 2
    ensures op.Repeat? && acc == [] ==> ApplyOp(op, acc) == None
    ensures op.Repeat? && acc != [] ==>
      ApplyOp(op, acc) == Some(acc + Fill(3 + LsbValue(OpExtraBits(op)), acc[|acc| - 1]))
    ensures op.Zeros? ==> OpSymbol(op) == 17 && |OpExtraBits(op)| == 3
    ensures op.Zeros? ==> ApplyOp(op, acc) == Some(acc + Fill(3 + LsbValue(OpExtraBits(op)), 0))
    ensures op.LongZeros? ==> OpSymbol(op) == 18 && |OpExtraBits(op)| == 7
    ensures op.LongZeros? ==> ApplyOp(op, acc) == Some(acc + Fill(11 + LsbValue(OpExtraBits(op)), 0))
  {
    PowersUpTo13();
    match op
    case One(_) =>
    case Repeat(x) => LsbValueOfBits(x, 2);
    case Zeros(x) => LsbValueOfBits(x, 3);
    case LongZeros(x) => LsbValueOfBits(x, 7);
  }
}
