/** CRC-32 and CRC-64 as the readers compute them, on machine words. */
module Checksums {
  import opened Bits
  import opened Crc

  const WORD32: nat := 0xFFFF_FFFF
  const WORD64: nat := 0xFFFF_FFFF_FFFF_FFFF
  const POLY32: nat := 0xEDB88320
  const POLY64: nat := 0xC96C5795D7870F42

  function Poly32(): (p: BitString)
    ensures |p| == 32
  {
    LsbBits(POLY32, 32)
  }

  function Poly64(): (p: BitString)
    ensures |p| == 64
  {
    LsbBits(POLY64, 64)
  }

  lemma PolynomialsAreProper()
    ensures Polynomial(Poly32()) && Polynomial(Poly64())
  {
    WordSizes();
    assert Pow2(32) == 2 * Pow2(31) && Pow2(64) == 2 * Pow2(63);
    hide Pow2, LsbBits;
    TopBit(POLY32, 32);
    TopBit(POLY64, 64);
  }

  lemma {:induction false} TopBit(v: nat, n: nat)
    requires n > 0 && Pow2(n - 1) <= v < Pow2(n)
    ensures LsbBits(v, n)[n - 1]
    decreases n
  {
    if n > 1 {
      TopBit(v / 2, n - 1);
    }
  }

  function Crc32(data: seq<Byte>, seed: nat): (v: nat)
  {
    LsbValue(Check(data, LsbBits(seed, 32), Poly32()))
  }

  function Crc64(data: seq<Byte>, seed: nat): (v: nat)
  {
    LsbValue(Check(data, LsbBits(seed, 64), Poly64()))
  }

  // ---- words and their bits -----------------------------------------------------------------

  lemma {:induction false} XorBits(a: nat, b: nat, n: nat)
    ensures LsbBits(BitXor(a, b), n) == Xor(LsbBits(a, n), LsbBits(b, n))
  {
    if n > 0 {
      assert BitXor(a, b) / 2 == BitXor(a / 2, b / 2);
      XorBits(a / 2, b / 2, n - 1);
    }
  }

  lemma {:induction false} XorBound(a: nat, b: nat, n: nat)
    requires a < Pow2(n) && b < Pow2(n)
    ensures BitXor(a, b) < Pow2(n)
  {
    if n > 0 {
      XorBound(a / 2, b / 2, n - 1);
    }
  }

  lemma {:induction false} ShiftBits(v: nat, n: nat)
    requires n > 0 && v < Pow2(n)
    ensures LsbBits(v / 2, n) == LsbBits(v, n)[1..] + [false]
    decreases n
  {
    if n > 1 {
      ShiftBits(v / 2, n - 1);
    }
  }

  lemma {:induction false} OnesBits(n: nat)
    ensures LsbBits(Pow2(n) - 1, n) == Same(n, true)
  {
    if n > 0 {
      OnesBits(n - 1);
      assert (Pow2(n) - 1) / 2 == Pow2(n - 1) - 1;
    }
  }

  lemma {:induction false} ZeroBits(n: nat)
    ensures LsbBits(0, n) == Same(n, false)
  {
    if n > 0 {
      ZeroBits(n - 1);
    }
  }

  lemma {:induction false} WideBits(v: nat, m: nat, n: nat)
    requires v < Pow2(m) && m <= n
    ensures LsbBits(v, n) == Pad(LsbBits(v, m), n)
    decreases m
  {
    if m == 0 {
      ZeroBits(n);
    } else {
      WideBits(v / 2, m - 1, n - 1);
    }
  }

  lemma WordSizes()
    ensures WORD32 == Pow2(32) - 1 && WORD64 == Pow2(64) - 1 && Pow2(8) == 256
    ensures POLY32 < Pow2(32) && POLY64 < Pow2(64)
  {
    PowersOfTwo();
    assert Pow2(36) == 0x10_0000_0000;
    assert Pow2(40) == 0x100_0000_0000;
    assert Pow2(44) == 0x1000_0000_0000;
    assert Pow2(48) == 0x1_0000_0000_0000;
    assert Pow2(52) == 0x10_0000_0000_0000;
    assert Pow2(56) == 0x100_0000_0000_0000;
    assert Pow2(60) == 0x1000_0000_0000_0000;
  }

  /** `~v` */
  lemma ComplementBits(v: nat, n: nat)
    requires v < Pow2(n)
    ensures LsbBits(BitXor(v, Pow2(n) - 1), n) == Not(LsbBits(v, n)) && BitXor(v, Pow2(n) - 1) < Pow2(n)
  {
    XorBits(v, Pow2(n) - 1, n);
    XorBound(v, Pow2(n) - 1, n);
    OnesBits(n);
  }

  /** A word that holds the register holds the register's step after either form of the
      update. */
  lemma StepBits(c: nat, poly: nat, n: nat)
    requires n > 0 && c < Pow2(n) && poly < Pow2(n)
    ensures var r := if c % 2 == 1 then BitXor(c / 2, poly) else c / 2;
      r < Pow2(n) && LsbBits(r, n) == Step(LsbBits(c, n), LsbBits(poly, n))
    ensures BitXor(c / 2, 0) == c / 2
  {
    ShiftBits(c, n);
    XorBits(c / 2, poly, n);
    XorBound(c / 2, poly, n);
    XorZero(c / 2);
  }

  lemma {:induction false} XorZero(a: nat)
    ensures BitXor(a, 0) == a
  {
    if a > 0 {
      XorZero(a / 2);
    }
  }

  /** And-ing with the mask of all ones or of none keeps or drops the polynomial. */
  lemma MaskKeeps(poly: nat, n: nat)
    requires poly < Pow2(n)
    ensures BitAnd(poly, Pow2(n) - 1) == poly && BitAnd(poly, 0) == 0
  {
    BitAndMask(poly, n);
    BitAndZero(poly);
    LowKeeps(poly, n);
  }

  lemma {:induction false} StepsAdd(c: BitString, poly: BitString, k: nat)
    requires |c| == |poly| > 0
    ensures Steps(c, poly, k + 1) == Step(Steps(c, poly, k), poly)
    decreases k
  {
    if k > 0 {
      StepsAdd(Step(c, poly), poly, k - 1);
    }
  }

  /** One more byte of the message: its bits are folded in at once, then eight steps. */
  lemma ByteFed(data: seq<Byte>, i: nat, c: BitString, poly: BitString)
    requires i < |data| && |c| == |poly| >= 8
    ensures Feed(StreamBits(data[..i + 1]), c, poly)
      == Steps(Xor(Feed(StreamBits(data[..i]), c, poly), Pad(LsbBits(data[i], 8), |c|)), poly, 8)
  {
    hide Feed, Steps, Xor, Pad;
    assert data[..i + 1] == data[..i] + [data[i]];
    StreamBitsConcat(data[..i], [data[i]]);
    assert StreamBits([data[i]]) == LsbBits(data[i], 8);
    FeedConcat(StreamBits(data[..i]), LsbBits(data[i], 8), c, poly);
    Absorb(LsbBits(data[i], 8), Feed(StreamBits(data[..i]), c, poly), poly);
  }

  lemma FoldByte(c: nat, b: Byte, n: nat)
    requires n >= 8 && c < Pow2(n)
    ensures BitXor(c, b) < Pow2(n) && LsbBits(BitXor(c, b), n) == Xor(LsbBits(c, n), Pad(LsbBits(b, 8), n))
  {
    WordSizes();
    Pow2Monotone(8, n);
    XorBits(c, b, n);
    XorBound(c, b, n);
    WideBits(b, 8, n);
  }

  // ---- the loops ------------------------------------------------------------------------------

  /** The form without a branch: the polynomial is masked by minus the low bit. */
  method Crc32Bytes(data: seq<Byte>) returns (crc: nat)
    ensures crc == Crc32(data, 0) && crc <= WORD32
  {
    hide Xor, Steps, Feed, Not, Step, Pad, BitXor, BitAnd, LsbBits, LsbValue;
    WordSizes();
    ghost var poly, seed := Poly32(), Not(LsbBits(0, 32));
    OnesBits(32);
    ZeroBits(32);
    NotOfZeros(32);
    assert data[..0] == [];
    FeedNothing(seed, poly);
    crc := WORD32;
    for i := 0 to |data|
      invariant crc < Pow2(32) && LsbBits(crc, 32) == Feed(StreamBits(data[..i]), seed, poly)
    {
      FoldByte(crc, data[i], 32);
      crc := BitXor(crc, data[i]);
      ghost var folded := LsbBits(crc, 32);
      ByteFed(data, i, seed, poly);
      NoSteps(folded, poly);
      for bit := 0 to 8
        invariant crc < Pow2(32) && LsbBits(crc, 32) == Steps(folded, poly, bit)
      {
        StepBits(crc, POLY32, 32);
        MaskKeeps(POLY32, 32);
        StepsAdd(folded, poly, bit);
        crc := BitXor(crc / 2, BitAnd(POLY32, if crc % 2 == 1 then WORD32 else 0));
      }
    }
    assert data[..|data|] == data;
    ComplementBits(crc, 32);
    crc := BitXor(crc, WORD32);
    LsbValueOfBits(crc, 32);
  }

  lemma NoSteps(c: BitString, poly: BitString)
    requires |c| == |poly| > 0
    ensures Steps(c, poly, 0) == c
  {
  }

  lemma FeedNothing(c: BitString, poly: BitString)
    requires |c| == |poly| > 0
    ensures Feed(StreamBits([]), c, poly) == c
  {
  }

  lemma NotOfZeros(n: nat)
    ensures Not(Same(n, false)) == Same(n, true)
  {
  }

  /** The form with a branch and a seed, for a register of `n` bits. */
  method CrcBranching(data: seq<Byte>, seed: nat, poly: nat, ghost n: nat, word: nat) returns (crc: nat)
    requires n >= 8 && word == Pow2(n) - 1 && seed <= word && poly <= word
    ensures crc == LsbValue(Check(data, LsbBits(seed, n), LsbBits(poly, n))) && crc <= word
  {
    hide Xor, Steps, Feed, Not, Step, Pad, BitXor, LsbBits, LsbValue;
    ghost var p, s := LsbBits(poly, n), Not(LsbBits(seed, n));
    assert data[..0] == [];
    FeedNothing(s, p);
    ComplementBits(seed, n);
    crc := BitXor(seed, word);
    for i := 0 to |data|
      invariant crc < Pow2(n) && LsbBits(crc, n) == Feed(StreamBits(data[..i]), s, p)
    {
      FoldByte(crc, data[i], n);
      crc := BitXor(crc, data[i]);
      ghost var folded := LsbBits(crc, n);
      ByteFed(data, i, s, p);
      NoSteps(folded, p);
      for k := 0 to 8
        invariant crc < Pow2(n) && LsbBits(crc, n) == Steps(folded, p, k)
      {
        StepBits(crc, poly, n);
        StepsAdd(folded, p, k);
        crc := if crc % 2 == 1 then BitXor(crc / 2, poly) else crc / 2;
      }
    }
    assert data[..|data|] == data;
    ComplementBits(crc, n);
    crc := BitXor(crc, word);
    LsbValueOfBits(crc, n);
  }

  method XzCrc32(data: seq<Byte>, seed: nat) returns (crc: nat)
    requires seed <= WORD32
    ensures crc == Crc32(data, seed) && crc <= WORD32
  {
    WordSizes();
    hide Check, LsbBits, LsbValue, Pow2;
    crc := CrcBranching(data, seed, POLY32, 32, WORD32);
  }

  method XzCrc64(data: seq<Byte>, seed: nat) returns (crc: nat)
    requires seed <= WORD64
    ensures crc == Crc64(data, seed) && crc <= WORD64
  {
    WordSizes();
    hide Check, LsbBits, LsbValue, Pow2;
    crc := CrcBranching(data, seed, POLY64, 64, WORD64);
  }

  // ---- the laws, for the two checks --------------------------------------------------------------

  lemma Crc32Chains(a: seq<Byte>, b: seq<Byte>, seed: nat)
    ensures Crc32(a + b, seed) == Crc32(b, Crc32(a, seed)) && Crc32(a, seed) <= WORD32
  {
    hide Check, LsbBits, LsbValue, Pow2;
    var first := Check(a, LsbBits(seed, 32), Poly32());
    LsbBitsOfValue(first);
    LsbValueBound(first);
    WordSizes();
    CheckChains(a, b, LsbBits(seed, 32), Poly32());
  }

  lemma Crc64Chains(a: seq<Byte>, b: seq<Byte>, seed: nat)
    ensures Crc64(a + b, seed) == Crc64(b, Crc64(a, seed)) && Crc64(a, seed) <= WORD64
  {
    hide Check, LsbBits, LsbValue, Pow2;
    var first := Check(a, LsbBits(seed, 64), Poly64());
    LsbBitsOfValue(first);
    LsbValueBound(first);
    WordSizes();
    CheckChains(a, b, LsbBits(seed, 64), Poly64());
  }

  /** Any damage within four consecutive bytes changes the CRC-32, and any within eight the
      CRC-64. */
  lemma Crc32CatchesBursts(p: seq<Byte>, x: seq<Byte>, y: seq<Byte>, s: seq<Byte>, seed: nat)
    requires |x| == |y| <= 4 && x != y
    ensures Crc32(p + x + s, seed) != Crc32(p + y + s, seed)
  {
    hide Check, LsbBits, LsbValue;
    PolynomialsAreProper();
    ByteBurstsAreCaught(p, x, y, s, LsbBits(seed, 32), Poly32());
    LsbBitsOfValue(Check(p + x + s, LsbBits(seed, 32), Poly32()));
    LsbBitsOfValue(Check(p + y + s, LsbBits(seed, 32), Poly32()));
  }

  lemma Crc64CatchesBursts(p: seq<Byte>, x: seq<Byte>, y: seq<Byte>, s: seq<Byte>, seed: nat)
    requires |x| == |y| <= 8 && x != y
    ensures Crc64(p + x + s, seed) != Crc64(p + y + s, seed)
  {
    hide Check, LsbBits, LsbValue;
    PolynomialsAreProper();
    ByteBurstsAreCaught(p, x, y, s, LsbBits(seed, 64), Poly64());
    LsbBitsOfValue(Check(p + x + s, LsbBits(seed, 64), Poly64()));
    LsbBitsOfValue(Check(p + y + s, LsbBits(seed, 64), Poly64()));
  }
}
