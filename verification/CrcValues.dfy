/** The CRC-32 of four given bytes, worked out on a machine word: what it takes to show that a
    particular file is accepted. */
module CrcValues {
  import opened Bits
  import opened Crc
  import opened Checksums
  import opened Words

  /** The `n` low bits of a word, least significant first. */
  function Flags(c: bv32, n: nat): (r: BitString)
    ensures |r| == n
    decreases n
  {
    if n == 0 then [] else [c & 1 != 0] + Flags(c >> 1, n - 1)
  }

  lemma FlagsStep(c: bv32, d: bv32, n: nat)
    requires n > 0 && d == c >> 1
    ensures Flags(c, n) == [c & 1 != 0] + Flags(d, n - 1)
  {
  }

  // ---- numbers and words ------------------------------------------------------------------------

  lemma FourFlags(d: bv32, d1: bv32, d2: bv32, d3: bv32, c: bv32, n: nat)
    requires d1 == d >> 1 && d2 == d1 >> 1 && d3 == d2 >> 1 && c == d3 >> 1
    ensures Flags(d, n + 4) == [d & 1 != 0, d1 & 1 != 0, d2 & 1 != 0, d3 & 1 != 0] + Flags(c, n)
  {
    hide Flags;
    FlagsStep(d, d1, n + 4);
    FlagsStep(d1, d2, n + 3);
    FlagsStep(d2, d3, n + 2);
    FlagsStep(d3, c, n + 1);
  }

  lemma DigitAndRest(d: bv32, d1: bv32, d2: bv32, d3: bv32, c: bv32, n: nat)
    requires d1 == d >> 1 && d2 == d1 >> 1 && d3 == d2 >> 1 && c == d3 >> 1
    ensures Flags(d, n + 4) == Flags(d, 4) + Flags(c, n)
  {
    assert Flags(c, 0) == [];
    hide Flags;
    FourFlags(d, d1, d2, d3, c, n);
    FourFlags(d, d1, d2, d3, c, 0);
  }

  lemma DigitFirst(d: bv32, c: bv32, n: nat)
    requires d >> 1 >> 1 >> 1 >> 1 == c
    ensures Flags(d, n + 4) == Flags(d, 4) + Flags(c, n)
  {
    hide *;
    var d1 := d >> 1;
    var d2 := d1 >> 1;
    var d3 := d2 >> 1;
    DigitAndRest(d, d1, d2, d3, c, n);
  }

  /** One more hexadecimal digit at the low end of a number and of a word. */
  lemma DigitBits(v: nat, c: bv32, x: nat, d: bv32, n: nat)
    requires LsbBits(v, n) == Flags(c, n) && d >> 1 >> 1 >> 1 >> 1 == c && x < 16 && LsbBits(x, 4) == Flags(d, 4)
    ensures LsbBits(16 * v + x, n + 4) == Flags(d, n + 4)
  {
    DigitFirst(d, c, n);
    assert Pow2(4) == 16;
    assert Shl(v, 4) == 2 * Shl(v, 3) == 4 * Shl(v, 2) == 8 * Shl(v, 1) == 16 * v;
    hide Flags, LsbBits, Pow2, Shl;
    LsbBitsJoin(x, 4, v, n);
  }

  lemma NoBits(v: nat, c: bv32)
    ensures LsbBits(v, 0) == Flags(c, 0)
  {
  }

  lemma PolyBits()
    ensures LsbBits(POLY32, 32) == Flags(0xEDB8_8320, 32)
  {
    NoBits(0, 0);
    DigitBits(0, 0, 0xE, 0xE, 0);
    DigitBits(0xE, 0xE, 0xD, 0xED, 4);
    DigitBits(0xED, 0xED, 0xB, 0xEDB, 8);
    DigitBits(0xEDB, 0xEDB, 0x8, 0xEDB8, 12);
    DigitBits(0xEDB8, 0xEDB8, 0x8, 0xEDB88, 16);
    DigitBits(0xEDB88, 0xEDB88, 0x3, 0xEDB883, 20);
    DigitBits(0xEDB883, 0xEDB883, 0x2, 0xEDB8832, 24);
    DigitBits(0xEDB8832, 0xEDB8832, 0, 0xEDB8_8320, 28);
  }

  lemma OnesAre()
    ensures LsbBits(WORD32, 32) == Flags(0xFFFF_FFFF, 32)
  {
    NoBits(0, 0);
    DigitBits(0, 0, 0xF, 0xF, 0);
    DigitBits(0xF, 0xF, 0xF, 0xFF, 4);
    DigitBits(0xFF, 0xFF, 0xF, 0xFFF, 8);
    DigitBits(0xFFF, 0xFFF, 0xF, 0xFFFF, 12);
    DigitBits(0xFFFF, 0xFFFF, 0xF, 0xFFFFF, 16);
    DigitBits(0xFFFFF, 0xFFFFF, 0xF, 0xFFFFFF, 20);
    DigitBits(0xFFFFFF, 0xFFFFFF, 0xF, 0xFFFFFFF, 24);
    DigitBits(0xFFFFFFF, 0xFFFFFFF, 0xF, 0xFFFF_FFFF, 28);
  }

  lemma HeaderBits()
    ensures LsbBits(0x0121_0001, 32) == Flags(0x0121_0001, 32)
  {
    NoBits(0, 0);
    DigitBits(0, 0, 0, 0, 0);
    DigitBits(0, 0, 0x1, 0x1, 4);
    DigitBits(0x1, 0x1, 0x2, 0x12, 8);
    DigitBits(0x12, 0x12, 0x1, 0x121, 12);
    DigitBits(0x121, 0x121, 0, 0x1210, 16);
    DigitBits(0x1210, 0x1210, 0, 0x12100, 20);
    DigitBits(0x12100, 0x12100, 0, 0x121000, 24);
    DigitBits(0x121000, 0x121000, 0x1, 0x0121_0001, 28);
  }

  lemma CheckBits()
    ensures LsbBits(0x6260_9D0C, 32) == Flags(0x6260_9D0C, 32)
  {
    UpperCheckBits();
    DigitBits(0x6260, 0x6260, 0x9, 0x62609, 16);
    DigitBits(0x62609, 0x62609, 0xD, 0x62609D, 20);
    DigitBits(0x62609D, 0x62609D, 0, 0x62609D0, 24);
    DigitBits(0x62609D0, 0x62609D0, 0xC, 0x6260_9D0C, 28);
  }

  lemma UpperCheckBits()
    ensures LsbBits(0x6260, 16) == Flags(0x6260, 16)
  {
    NoBits(0, 0);
    DigitBits(0, 0, 0x6, 0x6, 0);
    DigitBits(0x6, 0x6, 0x2, 0x62, 4);
    DigitBits(0x62, 0x62, 0x6, 0x626, 8);
    DigitBits(0x626, 0x626, 0, 0x6260, 12);
  }

  // ---- exclusive or -----------------------------------------------------------------------------

  lemma {:induction false} XorFlags(a: bv32, b: bv32, x: bv32, n: nat)
    requires x == a ^ b
    ensures Flags(x, n) == Xor(Flags(a, n), Flags(b, n))
    decreases n
  {
    hide *;
    if n > 0 {
      var a1, b1, x1 := a >> 1, b >> 1, x >> 1;
      XorHalves(a, b, x, a1, b1, x1);
      FlagsStep(a, a1, n);
      FlagsStep(b, b1, n);
      FlagsStep(x, x1, n);
      XorFlags(a1, b1, x1, n - 1);
      XorFirst([a & 1 != 0], Flags(a1, n - 1), [b & 1 != 0], Flags(b1, n - 1));
    } else {
      NoFlags(a, b, x);
    }
  }

  lemma NoFlags(a: bv32, b: bv32, x: bv32)
    ensures Flags(x, 0) == Xor(Flags(a, 0), Flags(b, 0))
  {
  }

  lemma XorHalves(a: bv32, b: bv32, x: bv32, a1: bv32, b1: bv32, x1: bv32)
    requires x == a ^ b && a1 == a >> 1 && b1 == b >> 1 && x1 == x >> 1
    ensures x1 == a1 ^ b1 && (x & 1 != 0 <==> (a & 1 != 0) != (b & 1 != 0))
  {
  }

  lemma XorFirst(a: BitString, s: BitString, b: BitString, t: BitString)
    requires |a| == |b| == 1 && |s| == |t|
    ensures Xor(a + s, b + t) == [a[0] != b[0]] + Xor(s, t)
  {
  }

  lemma NotFlags(c: bv32)
    ensures Not(Flags(c, 32)) == Flags(c ^ 0xFFFF_FFFF, 32)
  {
    OnesAre();
    WordSizes();
    OnesBits(32);
    hide Flags, Xor, LsbBits;
    XorFlags(c, 0xFFFF_FFFF, c ^ 0xFFFF_FFFF, 32);
  }

  // ---- steps of the register --------------------------------------------------------------------

  /** No bits from number `n` on. */
  predicate Below(c: bv32, n: nat)
    decreases n
  {
    if n == 0 then c == 0 else Below(c >> 1, n - 1)
  }

  lemma {:induction false} ShiftFlags(c: bv32, n: nat)
    requires n > 0 && Below(c, n)
    ensures Flags(c >> 1, n) == Flags(c, n)[1..] + [false]
    decreases n
  {
    var d := c >> 1;
    FlagsStep(c, d, n);
    FlagsStep(d, d >> 1, n);
    if n > 1 {
      ShiftFlags(d, n - 1);
      FlagsStep(d, d >> 1, n - 1);
    }
    hide Flags;
  }

  lemma WordsAreBelow(c: bv32)
    ensures Below(c, 32)
  {
    FourBelow(c >> 28, 0);
    FourBelow(c >> 24, 4);
    FourBelow(c >> 20, 8);
    FourBelow(c >> 16, 12);
    FourBelow(c >> 12, 16);
    FourBelow(c >> 8, 20);
    FourBelow(c >> 4, 24);
    FourBelow(c, 28);
  }

  lemma FourBelow(c: bv32, n: nat)
    ensures Below(c, n + 4) == Below(c >> 4, n)
  {
    assert Below(c, n + 4) == Below(c >> 1, n + 3) == Below(c >> 1 >> 1, n + 2) == Below(c >> 1 >> 1 >> 1, n + 1);
    assert c >> 1 >> 1 >> 1 >> 1 == c >> 4;
  }

  function Next(c: bv32): bv32 {
    if c & 1 != 0 then (c >> 1) ^ 0xEDB8_8320 else c >> 1
  }

  lemma NextIs(c: bv32)
    ensures Flags(Next(c), 32) == Step(Flags(c, 32), Poly32())
  {
    PolyBits();
    WordsAreBelow(c);
    ShiftFlags(c, 32);
    XorFlags(c >> 1, 0xEDB8_8320, (c >> 1) ^ 0xEDB8_8320, 32);
    assert Flags(c, 32)[0] == (c & 1 != 0);
    hide Flags, Xor, Below, LsbBits;
  }

  function FourSteps(c: bv32): bv32 {
    Next(Next(Next(Next(c))))
  }

  lemma FourStepsAre(c: bv32, n: nat)
    ensures Steps(Flags(c, 32), Poly32(), n + 4) == Steps(Flags(FourSteps(c), 32), Poly32(), n)
  {
    hide Flags, Step, Next, Poly32;
    NextIs(c);
    NextIs(Next(c));
    NextIs(Next(Next(c)));
    NextIs(Next(Next(Next(c))));
    var p, d := Poly32(), Flags(c, 32);
    assert Steps(d, p, n + 4) == Steps(Step(d, p), p, n + 3);
    assert Steps(Step(d, p), p, n + 3) == Steps(Step(Step(d, p), p), p, n + 2);
    assert Steps(Step(Step(d, p), p), p, n + 2) == Steps(Step(Step(Step(d, p), p), p), p, n + 1);
  }

  // ---- four bytes -------------------------------------------------------------------------------

  lemma {:induction false} StreamIsValue(s: seq<Byte>)
    ensures StreamBits(s) == LsbBits(LeValue(s), 8 * |s|)
  {
    if s != [] {
      var v := LeValue(s[1..]);
      StreamIsValue(s[1..]);
      JoinByte(s[0], v, 8 * |s| - 8);
    }
  }

  lemma JoinByte(b: Byte, v: nat, n: nat)
    ensures LsbBits(b + 256 * v, 8 + n) == LsbBits(b, 8) + LsbBits(v, n)
  {
    hide *;
    PowersOfTwo();
    ByteUp(v);
    LsbBitsJoin(b, 8, v, n);
  }

  lemma ByteUp(v: nat)
    ensures Shl(v, 8) == 256 * v
  {
    ShlByte(v, 0);
  }

  /** The check of four bytes: their word complemented, 32 steps, and complemented again. */
  lemma CheckOfFour(data: seq<Byte>, c: bv32, v: nat, r: bv32)
    requires |data| == 4 && LsbBits(LeValue(data), 32) == Flags(c, 32)
    requires Steps(Flags(c ^ 0xFFFF_FFFF, 32), Poly32(), 32) == Flags(r ^ 0xFFFF_FFFF, 32)
    requires v < Pow2(32) && LsbBits(v, 32) == Flags(r, 32)
    ensures Crc32(data, 0) == v
  {
    hide Steps, Feed, Flags, LsbBits, LsbValue, Poly32, Pow2, LeValue;
    var bits, ones := StreamBits(data), Same(32, true);
    StreamIsValue(data);
    ZeroBits(32);
    NotOfZeros(32);
    Absorb(bits, ones, Poly32());
    assert Pad(bits, 32) == bits;
    XorCommutes(ones, bits);
    NotFlags(c);
    NotFlags(r ^ 0xFFFF_FFFF);
    assert r ^ 0xFFFF_FFFF ^ 0xFFFF_FFFF == r;
    LsbValueOfBits(v, 32);
  }

  /** The check of the first four bytes of a block header of eight. */
  lemma ShortHeaderCheck()
    ensures Crc32([1, 0, 0x21, 1], 0) == 0x6260_9D0C
  {
    ShortHeaderWord();
    PowersOfTwo();
    HeaderBits();
    CheckBits();
    ShortHeaderSteps();
    hide *;
    CheckOfFour([1, 0, 0x21, 1], 0x0121_0001, 0x6260_9D0C, 0x6260_9D0C);
  }

  lemma ShortHeaderWord()
    ensures LeValue([1, 0, 0x21, 1]) == 0x0121_0001
  {
    var a: seq<Byte>, b: seq<Byte>, c: seq<Byte> := [1], [0x21, 1], [0, 0x21, 1];
    assert [1, 0, 0x21, 1][1..] == c && c[1..] == b && b[1..] == a && a[1..] == [];
    assert LeValue(a) == 1 && LeValue(b) == 0x0121 && LeValue(c) == 0x01_2100;
  }

  lemma StepWords()
    ensures FourSteps(0xFEDE_FFFE) == 0xAFE7_0D87 && FourSteps(0xAFE7_0D87) == 0x5AFB_01E4
    ensures FourSteps(0x5AFB_01E4) == 0x7373_F18E && FourSteps(0x7373_F18E) == 0xA73D_DD60
    ensures FourSteps(0xA73D_DD60) == 0x0A73_DDD6 && FourSteps(0x0A73_DDD6) == 0x4D15_5C85
    ensures FourSteps(0x4D15_5C85) == 0x6FBA_043C && FourSteps(0x6FBA_043C) == 0x9D9F_62F3
  {
  }

  lemma ShortHeaderSteps()
    ensures Steps(Flags(0xFEDE_FFFE, 32), Poly32(), 32) == Flags(0x9D9F_62F3, 32)
  {
    hide *;
    StepWords();
    FourStepsAre(0xFEDE_FFFE, 28);
    FourStepsAre(0xAFE7_0D87, 24);
    FourStepsAre(0x5AFB_01E4, 20);
    FourStepsAre(0x7373_F18E, 16);
    FourStepsAre(0xA73D_DD60, 12);
    FourStepsAre(0x0A73_DDD6, 8);
    FourStepsAre(0x4D15_5C85, 4);
    FourStepsAre(0x6FBA_043C, 0);
    NoSteps(Flags(0x9D9F_62F3, 32), Poly32());
  }

  // ---- the polynomials ------------------------------------------------------------------------------

  /** The `n` low bits of `v`, lowest first, appended to the number `acc`. */
  function Into(acc: nat, v: nat, n: nat): nat
    decreases n
  {
    if n == 0 then acc else Into(2 * acc + v % 2, v / 2, n - 1)
  }

  lemma {:induction false} ReadsInto(s: BitString, v: nat, n: nat)
    ensures MsbValue(s + LsbBits(v, n)) == Into(MsbValue(s), v, n)
    decreases n
  {
    if n == 0 {
      assert s + LsbBits(v, 0) == s;
    } else {
      var t := s + [v % 2 == 1];
      assert t[..|t| - 1] == s;
      assert s + LsbBits(v, n) == t + LsbBits(v / 2, n - 1);
      ReadsInto(t, v / 2, n - 1);
    }
  }

  lemma BitInto(acc: nat, w: nat, n: nat, b: nat)
    requires b < 2
    ensures Into(acc, b + 2 * w, n + 1) == Into(2 * acc + b, w, n)
  {
    assert (b + 2 * w) % 2 == b && (b + 2 * w) / 2 == w;
  }

  lemma BitsInto(acc: nat, w: nat, n: nat, a: nat, b: nat, c: nat, d: nat)
    requires a < 2 && b < 2 && c < 2 && d < 2
    ensures Into(acc, a + 2 * b + 4 * c + 8 * d + 16 * w, n + 4) == Into(8 * a + 4 * b + 2 * c + d + 16 * acc, w, n)
  {
    hide Into;
    var w3 := d + 2 * w;
    var w2 := c + 2 * w3;
    var w1 := b + 2 * w2;
    BitInto(acc, w1, n + 3, a);
    BitInto(2 * acc + a, w2, n + 2, b);
    BitInto(2 * (2 * acc + a) + b, w3, n + 1, c);
    BitInto(2 * (2 * (2 * acc + a) + b) + c, w, n, d);
  }

  /** `x` and `y` are one hexadecimal digit read from its two ends. */
  predicate Mirror(x: nat, y: nat) {
    (x, y) in {(0, 0), (1, 8), (2, 4), (3, 12), (4, 2), (5, 10), (6, 6), (7, 14),
               (8, 1), (9, 9), (10, 5), (11, 13), (12, 3), (13, 11), (14, 7), (15, 15)}
  }

  /** Four bits at a time. */
  lemma DigitInto(acc: nat, v: nat, n: nat, x: nat, w: nat, y: nat, r: nat)
    requires v == x + 16 * w && Mirror(x, y) && r == y + 16 * acc
    ensures Into(acc, v, n + 4) == Into(r, w, n)
  {
    hide Into;
    var d, c := if x < 8 then 0 else 1, if x % 8 < 4 then 0 else 1;
    var b, a := if x % 4 < 2 then 0 else 1, x % 2;
    assert x == a + 2 * b + 4 * c + 8 * d && y == 8 * a + 4 * b + 2 * c + d;
    BitsInto(acc, w, n, a, b, c, d);
  }

  lemma Mirrors()
    ensures Mirror(0, 0) && Mirror(1, 8) && Mirror(2, 4) && Mirror(3, 0xC) && Mirror(4, 2) && Mirror(5, 0xA)
    ensures Mirror(6, 6) && Mirror(7, 0xE) && Mirror(8, 1) && Mirror(9, 9) && Mirror(0xA, 5) && Mirror(0xB, 0xD)
    ensures Mirror(0xC, 3) && Mirror(0xD, 0xB) && Mirror(0xE, 7) && Mirror(0xF, 0xF)
  {
  }

  lemma Poly32First()
    ensures Into(0x0, 0xEDB88320, 32) == Into(0x4C1, 0xEDB8, 16)
  {
    Mirrors();
    hide Into, Mirror;
    DigitInto(0x0, 0xEDB88320, 28, 0x0, 0xEDB8832, 0x0, 0x0);
    DigitInto(0x0, 0xEDB8832, 24, 0x2, 0xEDB883, 0x4, 0x4);
    DigitInto(0x4, 0xEDB883, 20, 0x3, 0xEDB88, 0xC, 0x4C);
    DigitInto(0x4C, 0xEDB88, 16, 0x8, 0xEDB8, 0x1, 0x4C1);
  }

  lemma Poly32Second()
    ensures Into(0x4C1, 0xEDB8, 16) == Into(0x4C11DB7, 0x0, 0)
  {
    Mirrors();
    hide Into, Mirror;
    DigitInto(0x4C1, 0xEDB8, 12, 0x8, 0xEDB, 0x1, 0x4C11);
    DigitInto(0x4C11, 0xEDB, 8, 0xB, 0xED, 0xD, 0x4C11D);
    DigitInto(0x4C11D, 0xED, 4, 0xD, 0xE, 0xB, 0x4C11DB);
    DigitInto(0x4C11DB, 0xE, 0, 0xE, 0x0, 0x7, 0x4C11DB7);
  }

  lemma Poly64First()
    ensures Into(0x0, 0xC96C5795D7870F42, 64) == Into(0x42F0, 0xC96C5795D787, 48)
  {
    Mirrors();
    hide Into, Mirror;
    DigitInto(0x0, 0xC96C5795D7870F42, 60, 0x2, 0xC96C5795D7870F4, 0x4, 0x4);
    DigitInto(0x4, 0xC96C5795D7870F4, 56, 0x4, 0xC96C5795D7870F, 0x2, 0x42);
    DigitInto(0x42, 0xC96C5795D7870F, 52, 0xF, 0xC96C5795D7870, 0xF, 0x42F);
    DigitInto(0x42F, 0xC96C5795D7870, 48, 0x0, 0xC96C5795D787, 0x0, 0x42F0);
  }

  lemma Poly64Second()
    ensures Into(0x42F0, 0xC96C5795D787, 48) == Into(0x42F0E1EB, 0xC96C5795, 32)
  {
    Mirrors();
    hide Into, Mirror;
    DigitInto(0x42F0, 0xC96C5795D787, 44, 0x7, 0xC96C5795D78, 0xE, 0x42F0E);
    DigitInto(0x42F0E, 0xC96C5795D78, 40, 0x8, 0xC96C5795D7, 0x1, 0x42F0E1);
    DigitInto(0x42F0E1, 0xC96C5795D7, 36, 0x7, 0xC96C5795D, 0xE, 0x42F0E1E);
    DigitInto(0x42F0E1E, 0xC96C5795D, 32, 0xD, 0xC96C5795, 0xB, 0x42F0E1EB);
  }

  lemma Poly64Third()
    ensures Into(0x42F0E1EB, 0xC96C5795, 32) == Into(0x42F0E1EBA9EA, 0xC96C, 16)
  {
    Mirrors();
    hide Into, Mirror;
    DigitInto(0x42F0E1EB, 0xC96C5795, 28, 0x5, 0xC96C579, 0xA, 0x42F0E1EBA);
    DigitInto(0x42F0E1EBA, 0xC96C579, 24, 0x9, 0xC96C57, 0x9, 0x42F0E1EBA9);
    DigitInto(0x42F0E1EBA9, 0xC96C57, 20, 0x7, 0xC96C5, 0xE, 0x42F0E1EBA9E);
    DigitInto(0x42F0E1EBA9E, 0xC96C5, 16, 0x5, 0xC96C, 0xA, 0x42F0E1EBA9EA);
  }

  lemma Poly64Fourth()
    ensures Into(0x42F0E1EBA9EA, 0xC96C, 16) == Into(0x42F0E1EBA9EA3693, 0x0, 0)
  {
    Mirrors();
    hide Into, Mirror;
    DigitInto(0x42F0E1EBA9EA, 0xC96C, 12, 0xC, 0xC96, 0x3, 0x42F0E1EBA9EA3);
    DigitInto(0x42F0E1EBA9EA3, 0xC96, 8, 0x6, 0xC9, 0x6, 0x42F0E1EBA9EA36);
    DigitInto(0x42F0E1EBA9EA36, 0xC9, 4, 0x9, 0xC, 0x9, 0x42F0E1EBA9EA369);
    DigitInto(0x42F0E1EBA9EA369, 0xC, 0, 0xC, 0x0, 0x3, 0x42F0E1EBA9EA3693);
  }

  lemma Poly32Mirrored()
    ensures Into(0, POLY32, 32) == 0x04C1_1DB7
  {
    assert Into(0x04C1_1DB7, 0, 0) == 0x04C1_1DB7;
    hide Into;
    Poly32First();
    Poly32Second();
  }

  lemma Poly64Mirrored()
    ensures Into(0, POLY64, 64) == 0x42F0_E1EB_A9EA_3693
  {
    assert Into(0x42F0_E1EB_A9EA_3693, 0, 0) == 0x42F0_E1EB_A9EA_3693;
    hide Into;
    Poly64First();
    Poly64Second();
    Poly64Third();
    Poly64Fourth();
  }

  /** Highest power first, the polynomials are those of the two standards: 04C11DB7 and
      42F0E1EBA9EA3693. */
  lemma PolynomialsAre()
    ensures MsbValue(Poly32()) == 0x04C1_1DB7 && MsbValue(Poly64()) == 0x42F0_E1EB_A9EA_3693
  {
    hide LsbBits, Into;
    Poly32Mirrored();
    Poly64Mirrored();
    ReadsInto([], POLY32, 32);
    ReadsInto([], POLY64, 64);
    assert [] + Poly32() == Poly32() && [] + Poly64() == Poly64();
  }
}
