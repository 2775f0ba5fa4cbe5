/** A known answer: the file that holds the letter a, as an ordinary compressor writes it, byte by
    byte with its five checks. */
module XzVector {
  import opened Bits
  import opened Words
  import opened Vli
  import opened Crc
  import opened Checksums
  import opened CrcValues
  import opened XzModel
  import opened XzTheorems
  import opened XzStream

  // ---- one more byte ------------------------------------------------------------------------------

  lemma NoCheck()
    ensures Check([], Flags(0, 32), Poly32()) == Flags(0, 32) && LsbBits(0, 32) == Flags(0, 32)
  {
    ZeroBytes();
    DigitBits(0, 0, 0, 0, 24);
    DigitBits(0, 0, 0, 0, 28);
    NotNot(Flags(0, 32));
    hide Not;
  }

  lemma ZeroBytes()
    ensures LsbBits(0, 24) == Flags(0, 24)
  {
    NoBits(0, 0);
    DigitBits(0, 0, 0, 0, 0);
    DigitBits(0, 0, 0, 0, 4);
    DigitBits(0, 0, 0, 0, 8);
    DigitBits(0, 0, 0, 0, 12);
    DigitBits(0, 0, 0, 0, 16);
    DigitBits(0, 0, 0, 0, 20);
  }

  /** The check of one more byte: two times four steps of the register. */
  lemma NextByte(data: seq<Byte>, more: seq<Byte>, b: Byte, w: bv32, c: bv32, x: bv32, y: bv32, z: bv32, r: bv32)
    requires more == data + [b] && LsbBits(b, 32) == Flags(w, 32)
    requires Check(data, Flags(0, 32), Poly32()) == Flags(c, 32) && x == c ^ 0xFFFF_FFFF ^ w
    requires FourSteps(x) == y && FourSteps(y) == z && r == z ^ 0xFFFF_FFFF
    ensures Check(more, Flags(0, 32), Poly32()) == Flags(r, 32)
  {
    hide *;
    PolyLength();
    OneCheck(b, w, c, x, y, z);
    NotFlags(z);
    CheckChains(data, [b], Flags(0, 32), Poly32());
  }

  lemma PolyLength()
    ensures |Poly32()| == 32
  {
  }

  lemma OneCheck(b: Byte, w: bv32, c: bv32, x: bv32, y: bv32, z: bv32)
    requires LsbBits(b, 32) == Flags(w, 32) && x == c ^ 0xFFFF_FFFF ^ w && FourSteps(x) == y && FourSteps(y) == z
    ensures Check([b], Flags(c, 32), Poly32()) == Not(Flags(z, 32))
  {
    hide *;
    var d := c ^ 0xFFFF_FFFF;
    PolyLength();
    OneByte(b);
    CheckMeans([b], Flags(c, 32), Poly32());
    NotFlags(c);
    Absorb(LsbBits(b, 8), Flags(d, 32), Poly32());
    WidePad(b);
    XorFlags(d, w, x, 32);
    EightSteps(x, y, z);
  }

  lemma OneByte(b: Byte)
    ensures StreamBits([b]) == LsbBits(b, 8) && |LsbBits(b, 8)| == 8
  {
    var one: seq<Byte> := [b];
    assert one[1..] == [];
    assert StreamBits(one) == LsbBits(b, 8) + [];
    hide LsbBits;
  }

  lemma CheckMeans(data: seq<Byte>, seed: BitString, poly: BitString)
    requires |seed| == |poly| > 0
    ensures Check(data, seed, poly) == Not(Feed(StreamBits(data), Not(seed), poly))
  {
  }

  lemma WidePad(b: Byte)
    ensures Pad(LsbBits(b, 8), 32) == LsbBits(b, 32)
  {
    JoinByte(b, 0, 24);
    ZeroBits(24);
    hide LsbBits;
  }

  lemma EightSteps(x: bv32, y: bv32, z: bv32)
    requires FourSteps(x) == y && FourSteps(y) == z
    ensures Steps(Flags(x, 32), Poly32(), 8) == Flags(z, 32)
  {
    hide *;
    FourStepsAre(x, 4);
    FourStepsAre(y, 0);
    NoSteps(Flags(z, 32));
  }

  lemma NoSteps(c: BitString)
    requires |c| == |Poly32()| > 0
    ensures Steps(c, Poly32(), 0) == c
  {
  }

  lemma CheckIs(data: seq<Byte>, v: nat, w: bv32)
    requires Check(data, Flags(0, 32), Poly32()) == Flags(w, 32) && LsbBits(0, 32) == Flags(0, 32)
    requires LsbBits(v, 32) == Flags(w, 32) && v < 0x1_0000_0000
    ensures Crc32(data, 0) == v
  {
    WordSizes();
    hide Check, LsbBits, Flags, Poly32, Pow2, LsbValue;
    LsbValueOfBits(v, 32);
  }

  lemma Digits()
    ensures LsbBits(0, 4) == Flags(0, 4) && LsbBits(1, 4) == Flags(1, 4) && LsbBits(2, 4) == Flags(2, 4)
    ensures LsbBits(3, 4) == Flags(3, 4) && LsbBits(4, 4) == Flags(4, 4) && LsbBits(5, 4) == Flags(5, 4)
    ensures LsbBits(6, 4) == Flags(6, 4) && LsbBits(7, 4) == Flags(7, 4) && LsbBits(8, 4) == Flags(8, 4)
    ensures LsbBits(9, 4) == Flags(9, 4) && LsbBits(0xA, 4) == Flags(0xA, 4) && LsbBits(0xB, 4) == Flags(0xB, 4)
    ensures LsbBits(0xC, 4) == Flags(0xC, 4) && LsbBits(0xD, 4) == Flags(0xD, 4)
    ensures LsbBits(0xE, 4) == Flags(0xE, 4) && LsbBits(0xF, 4) == Flags(0xF, 4)
  {
  }

  /** One more hexadecimal digit, by its own value. */
  lemma NextDigit(v: nat, c: bv32, x: nat, low: bv32, d: bv32, n: nat)
    requires LsbBits(v, n) == Flags(c, n) && d >> 4 == c && d & 15 == low && x < 16 && LsbBits(x, 4) == Flags(low, 4)
    ensures LsbBits(16 * v + x, n + 4) == Flags(d, n + 4)
  {
    hide *;
    assert d >> 1 >> 1 >> 1 >> 1 == c;
    LowFlags(d, low);
    DigitBits(v, c, x, d, n);
  }

  lemma LowFlags(d: bv32, low: bv32)
    requires d & 15 == low
    ensures Flags(d, 4) == Flags(low, 4)
  {
    var d1, e1 := d >> 1, low >> 1;
    var d2, e2 := d1 >> 1, e1 >> 1;
    var d3, e3 := d2 >> 1, e2 >> 1;
    var d4, e4 := d3 >> 1, e3 >> 1;
    FourFlags(d, d1, d2, d3, d4, 0);
    FourFlags(low, e1, e2, e3, e4, 0);
    assert Flags(d4, 0) == [] && Flags(e4, 0) == [];
    hide Flags;
    LowBits(d, low, d1, e1, d2, e2, d3, e3);
  }

  lemma LowBits(d: bv32, low: bv32, d1: bv32, e1: bv32, d2: bv32, e2: bv32, d3: bv32, e3: bv32)
    requires d & 15 == low && d1 == d >> 1 && e1 == low >> 1 && d2 == d1 >> 1 && e2 == e1 >> 1 && d3 == d2 >> 1 && e3 == e2 >> 1
    ensures (d & 1 != 0) == (low & 1 != 0) && (d1 & 1 != 0) == (e1 & 1 != 0)
    ensures (d2 & 1 != 0) == (e2 & 1 != 0) && (d3 & 1 != 0) == (e3 & 1 != 0)
  {
  }

  // ---- five checks ----------------------------------------------------------------------------------

  /** The bytes that occur, as words. */
  lemma Bytes()
    ensures LsbBits(0, 32) == Flags(0x0, 32)
    ensures LsbBits(1, 32) == Flags(0x1, 32)
    ensures LsbBits(2, 32) == Flags(0x2, 32)
    ensures LsbBits(0x15, 32) == Flags(0x15, 32)
    ensures LsbBits(0x16, 32) == Flags(0x16, 32)
    ensures LsbBits(0x21, 32) == Flags(0x21, 32)
    ensures LsbBits(0x61, 32) == Flags(0x61, 32)
  {
    hide *;
    Digits();
    ZeroBytes();
    NextDigit(0, 0, 0x0, 0x0, 0x0, 24);
    NextDigit(0x0, 0x0, 0x0, 0x0, 0x0, 28);
    NextDigit(0, 0, 0x0, 0x0, 0x0, 24);
    NextDigit(0x0, 0x0, 0x1, 0x1, 0x1, 28);
    NextDigit(0, 0, 0x0, 0x0, 0x0, 24);
    NextDigit(0x0, 0x0, 0x2, 0x2, 0x2, 28);
    NextDigit(0, 0, 0x1, 0x1, 0x1, 24);
    NextDigit(0x1, 0x1, 0x5, 0x5, 0x15, 28);
    NextDigit(0, 0, 0x1, 0x1, 0x1, 24);
    NextDigit(0x1, 0x1, 0x6, 0x6, 0x16, 28);
    NextDigit(0, 0, 0x2, 0x2, 0x2, 24);
    NextDigit(0x2, 0x2, 0x1, 0x1, 0x21, 28);
    NextDigit(0, 0, 0x6, 0x6, 0x6, 24);
    NextDigit(0x6, 0x6, 0x1, 0x1, 0x61, 28);
  }

  lemma FlagWords()
    ensures FourSteps(0xFFFFFFFF) == 0xB2420DE3 && FourSteps(0xB2420DE3) == 0x2DFD1072
    ensures FourSteps(0x2DFD1073) == 0x2406E1AB && FourSteps(0x2406E1AB) == 0xC921DD96
  {
  }

  lemma FlagUpper()
    ensures LsbBits(0x36DE, 16) == Flags(0x36DE, 16)
  {
    hide *;
    Digits();
    NoBits(0, 0);
    NextDigit(0x0, 0x0, 0x3, 0x3, 0x3, 0);
    NextDigit(0x3, 0x3, 0x6, 0x6, 0x36, 4);
    NextDigit(0x36, 0x36, 0xD, 0xD, 0x36D, 8);
    NextDigit(0x36D, 0x36D, 0xE, 0xE, 0x36DE, 12);
  }

  lemma FlagValue()
    ensures LsbBits(0x36DE2269, 32) == Flags(0x36DE2269, 32)
  {
    hide *;
    Digits();
    FlagUpper();
    NextDigit(0x36DE, 0x36DE, 0x2, 0x2, 0x36DE2, 16);
    NextDigit(0x36DE2, 0x36DE2, 0x2, 0x2, 0x36DE22, 20);
    NextDigit(0x36DE22, 0x36DE22, 0x6, 0x6, 0x36DE226, 24);
    NextDigit(0x36DE226, 0x36DE226, 0x9, 0x9, 0x36DE2269, 28);
  }

  lemma FlagCheck()
    ensures Crc32([0, 1], 0) == 0x36DE2269
  {
    hide *;
    Bytes();
    NoCheck();
    FlagWords();
    NextByte([], [0], 0, 0x0, 0x0, 0xFFFFFFFF, 0xB2420DE3, 0x2DFD1072, 0xD202EF8D);
    NextByte([0], [0, 1], 1, 0x1, 0xD202EF8D, 0x2DFD1073, 0x2406E1AB, 0xC921DD96, 0x36DE2269);
    FlagValue();
    CheckIs([0, 1], 0x36DE2269, 0x36DE2269);
  }

  lemma HeaderWordsFirst()
    ensures FourSteps(0xFFFFFFFD) == 0x892C2D2B && FourSteps(0x892C2D2B) == 0xC3F3715E
    ensures FourSteps(0xC3F3715E) == 0xAC35D56D && FourSteps(0xAC35D56D) == 0x8C108F82
    ensures FourSteps(0x8C108FA3) == 0x2E183856 && FourSteps(0x2E183856) == 0x4F53E2DD
    ensures FourSteps(0x4F53E2DC) == 0x9F91FC9D && FourSteps(0x9F91FC9D) == 0x8F2ACD1D
  {
  }

  lemma HeaderWordsSecond()
    ensures FourSteps(0x8F2ACD0B) == 0xC3931F5C && FourSteps(0xC3931F5C) == 0x975DF345
    ensures FourSteps(0x975DF345) == 0x621E8EC0 && FourSteps(0x621E8EC0) == 0x621E8EC
    ensures FourSteps(0x621E8EC) == 0x9B06DC3E && FourSteps(0x9B06DC3E) == 0xA9BA8FBB
    ensures FourSteps(0xA9BA8FBB) == 0xC1FA1B77 && FourSteps(0xC1FA1B77) == 0x5C1AD08B
  {
  }

  lemma HeaderUpper()
    ensures LsbBits(0xA3E5, 16) == Flags(0xA3E5, 16)
  {
    hide *;
    Digits();
    NoBits(0, 0);
    NextDigit(0x0, 0x0, 0xA, 0xA, 0xA, 0);
    NextDigit(0xA, 0xA, 0x3, 0x3, 0xA3, 4);
    NextDigit(0xA3, 0xA3, 0xE, 0xE, 0xA3E, 8);
    NextDigit(0xA3E, 0xA3E, 0x5, 0x5, 0xA3E5, 12);
  }

  lemma HeaderValue()
    ensures LsbBits(0xA3E52F74, 32) == Flags(0xA3E52F74, 32)
  {
    hide *;
    Digits();
    HeaderUpper();
    NextDigit(0xA3E5, 0xA3E5, 0x2, 0x2, 0xA3E52, 16);
    NextDigit(0xA3E52, 0xA3E52, 0xF, 0xF, 0xA3E52F, 20);
    NextDigit(0xA3E52F, 0xA3E52F, 0x7, 0x7, 0xA3E52F7, 24);
    NextDigit(0xA3E52F7, 0xA3E52F7, 0x4, 0x4, 0xA3E52F74, 28);
  }

  lemma HeaderCheck()
    ensures Crc32([2, 0, 0x21, 1, 0x16, 0, 0, 0], 0) == 0xA3E52F74
  {
    hide *;
    Bytes();
    NoCheck();
    HeaderWordsFirst();
    HeaderWordsSecond();
    NextByte([], [2], 2, 0x2, 0x0, 0xFFFFFFFD, 0x892C2D2B, 0xC3F3715E, 0x3C0C8EA1);
    NextByte([2], [2, 0], 0, 0x0, 0x3C0C8EA1, 0xC3F3715E, 0xAC35D56D, 0x8C108F82, 0x73EF707D);
    NextByte([2, 0], [2, 0, 0x21], 0x21, 0x21, 0x73EF707D, 0x8C108FA3, 0x2E183856, 0x4F53E2DD, 0xB0AC1D22);
    NextByte([2, 0, 0x21], [2, 0, 0x21, 1], 1, 0x1, 0xB0AC1D22, 0x4F53E2DC, 0x9F91FC9D, 0x8F2ACD1D, 0x70D532E2);
    NextByte([2, 0, 0x21, 1], [2, 0, 0x21, 1, 0x16], 0x16, 0x16, 0x70D532E2, 0x8F2ACD0B, 0xC3931F5C, 0x975DF345, 0x68A20CBA);
    NextByte([2, 0, 0x21, 1, 0x16], [2, 0, 0x21, 1, 0x16, 0], 0, 0x0, 0x68A20CBA, 0x975DF345, 0x621E8EC0, 0x621E8EC, 0xF9DE1713);
    NextByte([2, 0, 0x21, 1, 0x16, 0], [2, 0, 0x21, 1, 0x16, 0, 0], 0, 0x0, 0xF9DE1713, 0x621E8EC, 0x9B06DC3E, 0xA9BA8FBB, 0x56457044);
    NextByte([2, 0, 0x21, 1, 0x16, 0, 0], [2, 0, 0x21, 1, 0x16, 0, 0, 0], 0, 0x0, 0x56457044, 0xA9BA8FBB, 0xC1FA1B77, 0x5C1AD08B, 0xA3E52F74);
    HeaderValue();
    CheckIs([2, 0, 0x21, 1, 0x16, 0, 0, 0], 0xA3E52F74, 0xA3E52F74);
  }

  lemma LetterWords()
    ensures FourSteps(0xFFFFFF9E) == 0xAFF51D81 && FourSteps(0xAFF51D81) == 0x174841BC
  {
  }

  lemma LetterUpper()
    ensures LsbBits(0xE8B7, 16) == Flags(0xE8B7, 16)
  {
    hide *;
    Digits();
    NoBits(0, 0);
    NextDigit(0x0, 0x0, 0xE, 0xE, 0xE, 0);
    NextDigit(0xE, 0xE, 0x8, 0x8, 0xE8, 4);
    NextDigit(0xE8, 0xE8, 0xB, 0xB, 0xE8B, 8);
    NextDigit(0xE8B, 0xE8B, 0x7, 0x7, 0xE8B7, 12);
  }

  lemma LetterValue()
    ensures LsbBits(0xE8B7BE43, 32) == Flags(0xE8B7BE43, 32)
  {
    hide *;
    Digits();
    LetterUpper();
    NextDigit(0xE8B7, 0xE8B7, 0xB, 0xB, 0xE8B7B, 16);
    NextDigit(0xE8B7B, 0xE8B7B, 0xE, 0xE, 0xE8B7BE, 20);
    NextDigit(0xE8B7BE, 0xE8B7BE, 0x4, 0x4, 0xE8B7BE4, 24);
    NextDigit(0xE8B7BE4, 0xE8B7BE4, 0x3, 0x3, 0xE8B7BE43, 28);
  }

  lemma LetterCheck()
    ensures Crc32([0x61], 0) == 0xE8B7BE43
  {
    hide *;
    Bytes();
    NoCheck();
    LetterWords();
    NextByte([], [0x61], 0x61, 0x61, 0x0, 0xFFFFFF9E, 0xAFF51D81, 0x174841BC, 0xE8B7BE43);
    LetterValue();
    CheckIs([0x61], 0xE8B7BE43, 0xE8B7BE43);
  }

  lemma IndexWords()
    ensures FourSteps(0xFFFFFFFF) == 0xB2420DE3 && FourSteps(0xB2420DE3) == 0x2DFD1072
    ensures FourSteps(0x2DFD1073) == 0x2406E1AB && FourSteps(0x2406E1AB) == 0xC921DD96
    ensures FourSteps(0xC921DD83) == 0x2A4B2D74 && FourSteps(0x2A4B2D74) == 0x7478F347
    ensures FourSteps(0x7478F346) == 0x4AF5EE6C && FourSteps(0x4AF5EE6C) == 0x9FCB9C56
  {
  }

  lemma IndexUpper()
    ensures LsbBits(0x6034, 16) == Flags(0x6034, 16)
  {
    hide *;
    Digits();
    NoBits(0, 0);
    NextDigit(0x0, 0x0, 0x6, 0x6, 0x6, 0);
    NextDigit(0x6, 0x6, 0x0, 0x0, 0x60, 4);
    NextDigit(0x60, 0x60, 0x3, 0x3, 0x603, 8);
    NextDigit(0x603, 0x603, 0x4, 0x4, 0x6034, 12);
  }

  lemma IndexValue()
    ensures LsbBits(0x603463A9, 32) == Flags(0x603463A9, 32)
  {
    hide *;
    Digits();
    IndexUpper();
    NextDigit(0x6034, 0x6034, 0x6, 0x6, 0x60346, 16);
    NextDigit(0x60346, 0x60346, 0x3, 0x3, 0x603463, 20);
    NextDigit(0x603463, 0x603463, 0xA, 0xA, 0x603463A, 24);
    NextDigit(0x603463A, 0x603463A, 0x9, 0x9, 0x603463A9, 28);
  }

  lemma IndexCheck()
    ensures Crc32([0, 1, 0x15, 1], 0) == 0x603463A9
  {
    hide *;
    Bytes();
    NoCheck();
    IndexWords();
    NextByte([], [0], 0, 0x0, 0x0, 0xFFFFFFFF, 0xB2420DE3, 0x2DFD1072, 0xD202EF8D);
    NextByte([0], [0, 1], 1, 0x1, 0xD202EF8D, 0x2DFD1073, 0x2406E1AB, 0xC921DD96, 0x36DE2269);
    NextByte([0, 1], [0, 1, 0x15], 0x15, 0x15, 0x36DE2269, 0xC921DD83, 0x2A4B2D74, 0x7478F347, 0x8B870CB8);
    NextByte([0, 1, 0x15], [0, 1, 0x15, 1], 1, 0x1, 0x8B870CB8, 0x7478F346, 0x4AF5EE6C, 0x9FCB9C56, 0x603463A9);
    IndexValue();
    CheckIs([0, 1, 0x15, 1], 0x603463A9, 0x603463A9);
  }

  lemma FooterWordsFirst()
    ensures FourSteps(0xFFFFFFFE) == 0xAFF51D87 && FourSteps(0xAFF51D87) == 0x5AFA20E4
    ensures FourSteps(0x5AFA20E4) == 0x7373E39E && FourSteps(0x7373E39E) == 0xA73DDC41
    ensures FourSteps(0xA73DDC41) == 0x17C4CDA0 && FourSteps(0x17C4CDA0) == 0x17C4CDA
    ensures FourSteps(0x17C4CDA) == 0xD6C16725 && FourSteps(0xD6C16725) == 0x66074786
  {
  }

  lemma FooterWordsSecond()
    ensures FourSteps(0x66074786) == 0x4BD21520 && FourSteps(0x4BD21520) == 0x4BD2152
    ensures FourSteps(0x4BD2153) == 0x2692E2B9 && FourSteps(0x2692E2B9) == 0xF266BD6F
  {
  }

  lemma FooterUpper()
    ensures LsbBits(0xD99, 16) == Flags(0xD99, 16)
  {
    hide *;
    Digits();
    NoBits(0, 0);
    NextDigit(0x0, 0x0, 0x0, 0x0, 0x0, 0);
    NextDigit(0x0, 0x0, 0xD, 0xD, 0xD, 4);
    NextDigit(0xD, 0xD, 0x9, 0x9, 0xD9, 8);
    NextDigit(0xD9, 0xD9, 0x9, 0x9, 0xD99, 12);
  }

  lemma FooterValue()
    ensures LsbBits(0xD994290, 32) == Flags(0xD994290, 32)
  {
    hide *;
    Digits();
    FooterUpper();
    NextDigit(0xD99, 0xD99, 0x4, 0x4, 0xD994, 16);
    NextDigit(0xD994, 0xD994, 0x2, 0x2, 0xD9942, 20);
    NextDigit(0xD9942, 0xD9942, 0x9, 0x9, 0xD99429, 24);
    NextDigit(0xD99429, 0xD99429, 0x0, 0x0, 0xD994290, 28);
  }

  lemma FooterCheck()
    ensures Crc32([1, 0, 0, 0, 0, 1], 0) == 0xD994290
  {
    hide *;
    Bytes();
    NoCheck();
    FooterWordsFirst();
    FooterWordsSecond();
    NextByte([], [1], 1, 0x1, 0x0, 0xFFFFFFFE, 0xAFF51D87, 0x5AFA20E4, 0xA505DF1B);
    NextByte([1], [1, 0], 0, 0x0, 0xA505DF1B, 0x5AFA20E4, 0x7373E39E, 0xA73DDC41, 0x58C223BE);
    NextByte([1, 0], [1, 0, 0], 0, 0x0, 0x58C223BE, 0xA73DDC41, 0x17C4CDA0, 0x17C4CDA, 0xFE83B325);
    NextByte([1, 0, 0], [1, 0, 0, 0], 0, 0x0, 0xFE83B325, 0x17C4CDA, 0xD6C16725, 0x66074786, 0x99F8B879);
    NextByte([1, 0, 0, 0], [1, 0, 0, 0, 0], 0, 0x0, 0x99F8B879, 0x66074786, 0x4BD21520, 0x4BD2152, 0xFB42DEAD);
    NextByte([1, 0, 0, 0, 0], [1, 0, 0, 0, 0, 1], 1, 0x1, 0xFB42DEAD, 0x4BD2153, 0x2692E2B9, 0xF266BD6F, 0xD994290);
    FooterValue();
    CheckIs([1, 0, 0, 0, 0, 1], 0xD994290, 0xD994290);
  }

  // ---- the file ---------------------------------------------------------------------------------------

  lemma LeFour(s: seq<Byte>, a: Byte, b: Byte, c: Byte, d: Byte, v: nat)
    requires s == [a, b, c, d] && v == a + 256 * (b + 256 * (c + 256 * d))
    ensures LeBytes(v, 4) == s
  {
    var s1, s2, s3 := s[1..], s[2..], s[3..];
    assert s1[1..] == s2 && s2[1..] == s3 && s3[1..] == [];
    assert LeValue(s3) == d && LeValue(s2) == c + 256 * d;
    assert LeValue(s1) == b + 256 * (c + 256 * d) && LeValue(s) == v;
    hide LeValue, LeBytes;
    LeBytesOfValue(s);
  }

  /** One chunk of one byte; no sizes declared; a dictionary of eight megabytes. */
  function TheBlock(): Spec {
    Spec([Chunk(true, [0x61])], false, false, 0x16, 3)
  }

  lemma ChunkIs(cs: seq<Chunk>)
    requires cs == TheBlock().chunks
    ensures ChunksGood(cs) && ChunkStream(cs) == [1, 0, 0, 0x61, 0] && Payload(cs) == [0x61]
  {
    assert cs[1..] == [];
    assert ChunkStream(cs[1..]) == [0] && Payload(cs[1..]) == [];
  }

  lemma HeaderIs(b: Spec)
    requires b == TheBlock()
    ensures SpecGood(b) && HeaderBody(b) == [2, 0, 0x21, 1, 0x16, 0, 0, 0]
  {
    ChunkIs(b.chunks);
    hide ChunkStream, Payload, ChunksGood;
    assert HeaderFields(b) == [0] + [] + [] + [0x21, 1, 0x16];
    assert Zeros(3) == [0, 0, 0];
    SmallPower();
  }

  lemma SmallPower()
    ensures Pow2(63) > 0x1_0000
  {
    WordSizes();
    assert Pow2(63) == 2 * Pow2(62);
    Pow2Monotone(32, 63);
  }

  lemma HeaderBytesAre(b: Spec)
    requires b == TheBlock()
    ensures SpecGood(b) && HeaderBytes(b) == [2, 0, 0x21, 1, 0x16, 0, 0, 0] + [0x74, 0x2F, 0xE5, 0xA3]
  {
    HeaderIs(b);
    HeaderCheck();
    hide SpecGood, HeaderBody, Crc32, LeBytes, TheBlock;
    LeFour([0x74, 0x2F, 0xE5, 0xA3], 0x74, 0x2F, 0xE5, 0xA3, 0xA3E52F74);
  }

  lemma BlockLaid(b: Spec, h: seq<Byte>, cs: seq<Byte>, out: seq<Byte>, check: seq<Byte>)
    requires SpecGood(b) && HeaderBytes(b) == h && ChunkStream(b.chunks) == cs && Payload(b.chunks) == out
    requires |h| + |cs| == 17 && |out| == 1 && LeBytes(CheckOf(4, out), 4) == check
    ensures BlockBytes(b, 4) == h + cs + [0, 0, 0] + check && RecordOf(b, 4) == Record(21, 1)
  {
    assert Fill(17) == 3 && Zeros(3) == [0, 0, 0];
    hide SpecGood, HeaderBytes, ChunkStream, Payload, LeBytes, CheckOf;
  }

  lemma LetterBytes()
    ensures LeBytes(CheckOf(4, [0x61]), 4) == [0x43, 0xBE, 0xB7, 0xE8]
  {
    LetterCheck();
    hide Crc32, Crc64, LeBytes;
    LeFour([0x43, 0xBE, 0xB7, 0xE8], 0x43, 0xBE, 0xB7, 0xE8, 0xE8B7BE43);
  }

  lemma BlockIs(b: Spec)
    requires b == TheBlock()
    ensures SpecGood(b) && RecordOf(b, 4) == Record(21, 1)
    ensures BlockBytes(b, 4) == [2, 0, 0x21, 1, 0x16, 0, 0, 0] + [0x74, 0x2F, 0xE5, 0xA3] + [1, 0, 0, 0x61, 0]
      + [0, 0, 0] + [0x43, 0xBE, 0xB7, 0xE8]
  {
    hide *;
    HeaderBytesAre(b);
    ChunkIs(b.chunks);
    LetterBytes();
    BlockLaid(b, [2, 0, 0x21, 1, 0x16, 0, 0, 0] + [0x74, 0x2F, 0xE5, 0xA3], [1, 0, 0, 0x61, 0], [0x61], [0x43, 0xBE, 0xB7, 0xE8]);
  }

  lemma IndexBodyIs(rs: seq<Record>)
    requires rs == [Record(21, 1)]
    ensures IndexBody(rs) == [0, 1, 0x15, 1]
  {
    assert rs[1..] == [] && RecordBytes(rs[1..]) == [];
    assert EncodeVli(21) == [0x15] && EncodeVli(1) == [1];
    hide EncodeVli;
    assert RecordBytes(rs) == [0x15] + [1] + [];
  }

  lemma IndexIs(rs: seq<Record>)
    requires rs == [Record(21, 1)]
    ensures IndexBytes(rs) == [0, 1, 0x15, 1] + [0xA9, 0x63, 0x34, 0x60]
  {
    hide IndexBody, Crc32, LeBytes;
    IndexBodyIs(rs);
    IndexCheck();
    LeFour([0xA9, 0x63, 0x34, 0x60], 0xA9, 0x63, 0x34, 0x60, 0x603463A9);
    assert IndexBody(rs) + Zeros(0) == [0, 1, 0x15, 1];
  }

  lemma FooterIs()
    ensures FooterBytes(8, [0, 1]) == [0x90, 0x42, 0x99, 0x0D] + [1, 0, 0, 0, 0, 1] + [0x59, 0x5A]
  {
    FooterCheck();
    hide Crc32, LeBytes;
    LeFour([0x90, 0x42, 0x99, 0x0D], 0x90, 0x42, 0x99, 0x0D, 0x0D994290);
    LeFour([1, 0, 0, 0], 1, 0, 0, 0, 1);
    assert FooterBody(8, [0, 1]) == [1, 0, 0, 0, 0, 1];
  }

  function TheFile(): File {
    File(1, [TheBlock()], 0)
  }

  lemma FileParts(f: File, index: seq<Byte>)
    requires f == TheFile() && index == [0, 1, 0x15, 1] + [0xA9, 0x63, 0x34, 0x60]
    ensures FileGood(f) && WholePayload(f.blocks) == [0x61]
    ensures FileBytes(f) == Magic() + [0, 1] + LeBytes(Crc32([0, 1], 0), 4) + BlockBytes(TheBlock(), 4) + index
      + FooterBytes(8, [0, 1])
  {
    var bs, b := f.blocks, TheBlock();
    hide SpecGood, BlockBytes, RecordOf, IndexBytes, FooterBytes, Crc32, LeBytes, Payload, TheBlock;
    BlockIs(b);
    IndexIs([Record(21, 1)]);
    OnePayload(b);
    SmallPower();
    assert bs[1..] == [];
    assert Records(bs[1..], 4) == [] && Records(bs, 4) == [Record(21, 1)];
    assert BlocksBytes(bs, 4) == BlockBytes(b, 4) + [];
    assert WholePayload(bs) == [0x61] + [];
    assert Zeros(4 * 0) == [];
  }

  lemma OnePayload(b: Spec)
    requires b == TheBlock()
    ensures Payload(b.chunks) == [0x61]
  {
    ChunkIs(b.chunks);
  }

  lemma MagicIs()
    ensures Magic() == [0xFD, 0x37, 0x7A, 0x58, 0x5A, 0x00]
  {
  }

  /** These sixty bytes are read as the letter a: the stream header, a block, the index and the
      footer. */
  lemma FileVector(data: seq<Byte>, cap: nat)
    requires cap >= 1
    requires data == [0xFD, 0x37, 0x7A, 0x58, 0x5A, 0x00] + [0, 1] + [0x69, 0x22, 0xDE, 0x36]
      + ([2, 0, 0x21, 1, 0x16, 0, 0, 0] + [0x74, 0x2F, 0xE5, 0xA3] + [1, 0, 0, 0x61, 0] + [0, 0, 0] + [0x43, 0xBE, 0xB7, 0xE8])
      + ([0, 1, 0x15, 1] + [0xA9, 0x63, 0x34, 0x60])
      + ([0x90, 0x42, 0x99, 0x0D] + [1, 0, 0, 0, 0, 1] + [0x59, 0x5A])
    ensures Xz(data, cap) == Ok([0x61])
  {
    hide *;
    MagicIs();
    FileParts(TheFile(), [0, 1, 0x15, 1] + [0xA9, 0x63, 0x34, 0x60]);
    BlockIs(TheBlock());
    FooterIs();
    FlagCheck();
    LeFour([0x69, 0x22, 0xDE, 0x36], 0x69, 0x22, 0xDE, 0x36, 0x36DE2269);
    FileIsRead(TheFile(), cap);
  }
}
