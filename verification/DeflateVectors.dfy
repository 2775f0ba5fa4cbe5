/** Known answers: byte strings of each block type and what they inflate to, worked out from the
    bits. They tie the grammar to the bytes of real streams: the order of the bits, the numbers
    of the block types, the fields of a header, both kinds of codes and their extra bits. */
module DeflateVectors {
  import opened Options
  import opened Bits
  import opened CanonicalCode
  import opened HuffmanTables
  import opened Lz77
  import opened DeflateFormat
  import opened DeflateDecoder
  import opened DeflateTheorems
  import opened DeflateLaws

  // ---- bit strings as numbers ---------------------------------------------------------------------

  /** `s` is the number `v` in `n` bits, least significant bit first. */
  ghost predicate Reads(s: BitString, v: nat, n: nat) {
    s == LsbBits(v, n)
  }

  /** A few bits in front of the rest. */
  lemma Put(s: BitString, v: nat, m: nat, t: BitString, w: nat, n: nat)
    requires Reads(s, v, m) && v < Pow2(m) && Reads(t, w, n)
    ensures Reads(s + t, v + Shl(w, m), m + n)
  {
    LsbBitsJoin(v, m, w, n);
  }

  lemma {:induction false} ShorterIsPrefix(v: nat, m: nat, n: nat)
    requires m <= n
    ensures LsbBits(v, m) <= LsbBits(v, n)
  {
    if m > 0 {
      ShorterIsPrefix(v / 2, m - 1, n - 1);
    }
  }

  lemma ShiftedByte(v: nat)
    ensures Shl(v, 8) == 256 * v
  {
    assert Shl(v, 2) == 2 * Shl(v, 1) == 4 * v;
    assert Shl(v, 4) == 2 * Shl(v, 3) == 4 * Shl(v, 2);
    assert Shl(v, 6) == 2 * Shl(v, 5) == 4 * Shl(v, 4);
    assert Shl(v, 8) == 2 * Shl(v, 7) == 4 * Shl(v, 6);
  }

  /** A byte string read as one number. */
  function Number(data: seq<Byte>): nat {
    if data == [] then 0 else data[0] + 256 * Number(data[1..])
  }

  lemma {:induction false} StreamReads(data: seq<Byte>)
    ensures Reads(StreamBits(data), Number(data), 8 * |data|)
  {
    if data != [] {
      StreamReads(data[1..]);
      PowersUpTo13();
      var rest := Number(data[1..]);
      Put(LsbBits(data[0], 8), data[0], 8, StreamBits(data[1..]), rest, 8 * |data| - 8);
      ShiftedByte(rest);
    }
  }

  /** A stream that reads as the number of the bytes is at their beginning. */
  lemma StandsIn(s: BitString, n: nat, data: seq<Byte>)
    requires n <= 8 * |data| && Reads(s, Number(data), n)
    ensures s <= StreamBits(data)
  {
    StreamReads(data);
    ShorterIsPrefix(Number(data), n, 8 * |data|);
  }

  lemma Grouped<T>(a: seq<T>, b: seq<T>, c: seq<T>)
    ensures a + (b + c) == a + b + c
  {
  }

  /** Four fields in front of the rest. */
  lemma PutFour(p: BitString, pv: nat, pn: nat, q: BitString, qv: nat, qn: nat, r: BitString, rv: nat, rn: nat,
                s: BitString, sv: nat, sn: nat, rest: BitString, w: nat, n: nat)
    requires Reads(p, pv, pn) && pv < Pow2(pn) && Reads(q, qv, qn) && qv < Pow2(qn)
    requires Reads(r, rv, rn) && rv < Pow2(rn) && Reads(s, sv, sn) && sv < Pow2(sn) && Reads(rest, w, n)
    ensures Reads(p + q + r + s + rest, MatchNumber(pv, pn, qv, qn, rv, rn, sv, sn, w), pn + (qn + (rn + (sn + n))))
  {
    hide Reads, Pow2, Shl;
    Put(s, sv, sn, rest, w, n);
    Put(r, rv, rn, s + rest, sv + Shl(w, sn), sn + n);
    Put(q, qv, qn, r + (s + rest), rv + Shl(sv + Shl(w, sn), rn), rn + (sn + n));
    Put(p, pv, pn, q + (r + (s + rest)), qv + Shl(rv + Shl(sv + Shl(w, sn), rn), qn), qn + (rn + (sn + n)));
    Grouped(p, q, r + (s + rest));
    Grouped(p + q, r, s + rest);
    Grouped(p + q + r, s, rest);
  }

  function MatchNumber(pv: nat, pn: nat, qv: nat, qn: nat, rv: nat, rn: nat, sv: nat, sn: nat, w: nat): nat {
    pv + Shl(qv + Shl(rv + Shl(sv + Shl(w, sn), rn), qn), pn)
  }

  /** A back-reference in front of the rest, by the numbers its four fields read as. */
  lemma PutMatch(t: Token, lit: Lengths, dist: Lengths, p: BitString, pv: nat, pn: nat, qn: nat,
                 r: BitString, rv: nat, rn: nat, sn: nat, rest: BitString, w: nat, n: nat)
    requires t.Match? && Encodable(t, lit, dist)
    requires p == CodeBits(lit, 257 + t.lengthCode) && Reads(p, pv, pn) && pv < Pow2(pn) && qn == LenExtra(t.lengthCode)
    requires r == CodeBits(dist, t.distCode) && Reads(r, rv, rn) && rv < Pow2(rn) && sn == DistExtra(t.distCode)
    requires Reads(rest, w, n)
    ensures Reads(EncodeToken(t, lit, dist) + rest, MatchNumber(pv, pn, t.lengthExtra, qn, rv, rn, t.distExtra, sn, w),
                  pn + (qn + (rn + (sn + n))))
  {
    var q, s, qv, sv := LsbBits(t.lengthExtra, qn), LsbBits(t.distExtra, sn), t.lengthExtra, t.distExtra;
    IsReading(sv, sn);
    IsReading(qv, qn);
    var e := EncodeToken(t, lit, dist);
    assert e == p + q + r + s;
    assert qv < Pow2(qn) && sv < Pow2(sn);
    hide *;
    PutFour(p, pv, pn, q, qv, qn, r, rv, rn, s, sv, sn, rest, w, n);
  }

  lemma IsReading(v: nat, n: nat)
    ensures Reads(LsbBits(v, n), v, n)
  {
  }

  // ---- a fixed block ------------------------------------------------------------------------------

  /** Twenty bytes from one back. */
  const TWENTY := Match(12, 1, 0, 0)
  /** Three bytes from ten back. */
  const THREE := Match(0, 0, 6, 1)

  lemma TwentyIs()
    ensures ValidToken(TWENTY) && MatchLength(TWENTY) == 20 && MatchDistance(TWENTY) == 1
    ensures LenExtra(12) == 2 && DistExtra(0) == 0
  {
    LengthCodesAre(12);
    DistanceCodesAre(0);
    PowersUpTo13();
  }

  lemma ThreeIs()
    ensures ValidToken(THREE) && MatchLength(THREE) == 3 && MatchDistance(THREE) == 10
    ensures LenExtra(0) == 0 && DistExtra(6) == 2
  {
    LengthCodesAre(0);
    DistanceCodesAre(6);
    PowersUpTo13();
  }

  function FixedTokens(): seq<Token> {
    [Literal(97), TWENTY, THREE]
  }

  lemma FixedLengthsAre()
    ensures var f := FixedLiteral(); f[97] == 8 && f[256] == f[257] == f[269] == 7
    ensures var f := FixedDistance(); f[0] == f[6] == 5
  {
  }

  /** A code of `n` bits turned round, as it is read. */
  function Turned(v: nat, n: nat): (r: nat)
    ensures r < Pow2(n)
  {
    if n == 0 then 0 else Turned(v / 2, n - 1) + if v % 2 == 1 then Pow2(n - 1) else 0
  }

  lemma {:induction false} ShlOfBit(n: nat)
    ensures Shl(0, n) == 0 && Shl(1, n) == Pow2(n)
  {
    if n > 0 {
      ShlOfBit(n - 1);
    }
  }

  lemma {:induction false} ReadsTurned(v: nat, n: nat)
    ensures Reads(MsbBits(v, n), Turned(v, n), n)
  {
    if n > 0 {
      ReadsTurned(v / 2, n - 1);
      ShlOfBit(n - 1);
      LsbBitsJoin(Turned(v / 2, n - 1), n - 1, v % 2, 1);
      assert LsbBits(v % 2, 1) == [v % 2 == 1];
    }
  }

  lemma FixedCodeReads(sym: nat, n: nat)
    requires sym < 280 && !(144 <= sym < 256) && n == if sym < 144 then 8 else 7
    ensures Coded(FixedLiteral(), sym) && FixedLiteral()[sym] == n
    ensures Reads(CodeBits(FixedLiteral(), sym), Turned(if sym < 144 then 0x30 + sym else sym - 256, n), n)
  {
    FixedCodesAre(sym);
    hide MsbBits, LsbBits, Turned, Reads, Code;
    if sym < 144 {
      ReadsTurned(0x30 + sym, 8);
    } else {
      ReadsTurned(sym - 256, 7);
    }
  }

  lemma FixedDistanceReads(c: nat)
    requires c < 30
    ensures Coded(FixedDistance(), c) && FixedDistance()[c] == 5
    ensures Reads(CodeBits(FixedDistance(), c), Turned(c, 5), 5)
  {
    FixedDistancesAre(c);
    ReadsTurned(c, 5);
    hide MsbBits, LsbBits, Turned, Code;
  }

  lemma FixedNumbers()
    ensures Turned(0x91, 8) == 137 && Turned(13, 7) == 88 && Turned(1, 7) == 64 && Turned(0, 7) == 0
    ensures Turned(6, 5) == 12 && Turned(0, 5) == 0
  {
    PowersUpTo13();
  }

  lemma MatchNumbers()
    ensures MatchNumber(64, 7, 0, 0, 12, 5, 1, 2, 0) == 0x1640
    ensures MatchNumber(88, 7, 1, 2, 0, 5, 0, 0, 0x1640) == 0x59000d8
  {
    assert Shl(0, 2) == 0 && Shl(1, 5) == 32 && Shl(44, 0) == 44;
  }

  /** What the codes of the symbols used here read as. */
  ghost predicate LiteralsRead(lit: Lengths) {
    && Coded(lit, 97) && Coded(lit, 256) && Coded(lit, 257) && Coded(lit, 269)
    && Reads(CodeBits(lit, 97), 137, 8) && Reads(CodeBits(lit, 256), 0, 7)
    && Reads(CodeBits(lit, 257), 64, 7) && Reads(CodeBits(lit, 269), 88, 7)
  }

  ghost predicate DistancesRead(dist: Lengths) {
    && Coded(dist, 0) && Coded(dist, 6)
    && Reads(CodeBits(dist, 0), 0, 5) && Reads(CodeBits(dist, 6), 12, 5)
  }

  lemma CodeReads(lit: Lengths, sym: nat, code: nat, n: nat, r: nat)
    requires Coded(lit, sym) && CodeBits(lit, sym) == MsbBits(code, n) && Turned(code, n) == r
    ensures Reads(CodeBits(lit, sym), r, n)
  {
    ReadsTurned(code, n);
  }

  lemma FixedLiteralsRead(lit: Lengths)
    requires lit == FixedLiteral()
    ensures LiteralsRead(lit)
  {
    FixedNumbers();
    FixedCodesAre(97);
    FixedCodesAre(256);
    FixedCodesAre(257);
    FixedCodesAre(269);
    hide FixedLiteral, CodeBits, Turned, Reads, MsbBits, Coded;
    CodeReads(lit, 97, 0x91, 8, 137);
    CodeReads(lit, 256, 0, 7, 0);
    CodeReads(lit, 257, 1, 7, 64);
    CodeReads(lit, 269, 13, 7, 88);
  }

  lemma FixedDistancesRead(dist: Lengths)
    requires dist == FixedDistance()
    ensures DistancesRead(dist)
  {
    FixedNumbers();
    FixedDistancesAre(0);
    FixedDistancesAre(6);
    hide FixedDistance, CodeBits, Turned, Reads, MsbBits, Coded;
    CodeReads(dist, 0, 0, 5, 0);
    CodeReads(dist, 6, 6, 5, 12);
  }

  lemma FixedTokensFit(lit: Lengths, dist: Lengths)
    requires LiteralsRead(lit) && DistancesRead(dist)
    ensures AllEncodable([THREE], lit, dist) && AllEncodable([TWENTY, THREE], lit, dist)
    ensures AllEncodable(FixedTokens(), lit, dist)
  {
    TwentyIs();
    ThreeIs();
    hide CodeBits, Reads, Pow2, LenExtra, DistExtra;
  }

  lemma ThreeReads(lit: Lengths, dist: Lengths, t: Token)
    requires LiteralsRead(lit) && DistancesRead(dist) && t == THREE
    ensures Encodable(t, lit, dist) && Reads(EncodeToken(t, lit, dist) + CodeBits(lit, 256), 0x1640, 21)
  {
    hide LenExtra, DistExtra, CodeBits, Reads, Pow2, MatchNumber, EncodeToken;
    ThreeIs();
    PowersUpTo13();
    MatchNumbers();
    assert Encodable(t, lit, dist);
    var p, r, rest := CodeBits(lit, 257), CodeBits(dist, 6), CodeBits(lit, 256);
    assert p == CodeBits(lit, 257 + t.lengthCode) && r == CodeBits(dist, t.distCode);
    assert Reads(p, 64, 7) && Reads(r, 12, 5) && Reads(rest, 0, 7);
    assert 0 == LenExtra(t.lengthCode) && 2 == DistExtra(t.distCode) && t.lengthExtra == 0 && t.distExtra == 1;
    hide *;
    PutMatch(t, lit, dist, p, 64, 7, 0, r, 12, 5, 2, rest, 0, 7);
  }

  lemma TwentyReads(lit: Lengths, dist: Lengths, t: Token, rest: BitString)
    requires LiteralsRead(lit) && DistancesRead(dist) && t == TWENTY && Reads(rest, 0x1640, 21)
    ensures Encodable(t, lit, dist) && Reads(EncodeToken(t, lit, dist) + rest, 0x59000d8, 35)
  {
    hide LenExtra, DistExtra, CodeBits, Reads, Pow2, MatchNumber, EncodeToken;
    TwentyIs();
    PowersUpTo13();
    MatchNumbers();
    assert Encodable(t, lit, dist);
    var p, r := CodeBits(lit, 269), CodeBits(dist, 0);
    assert p == CodeBits(lit, 257 + t.lengthCode) && r == CodeBits(dist, t.distCode);
    assert Reads(p, 88, 7) && Reads(r, 0, 5);
    assert 2 == LenExtra(t.lengthCode) && 0 == DistExtra(t.distCode) && t.lengthExtra == 1 && t.distExtra == 0;
    hide *;
    PutMatch(t, lit, dist, p, 88, 7, 2, r, 0, 5, 0, rest, 0x1640, 21);
  }

  lemma FixedTokensRead(lit: Lengths, dist: Lengths)
    requires LiteralsRead(lit) && DistancesRead(dist)
    ensures AllEncodable(FixedTokens(), lit, dist) && Reads(EncodeTokens(FixedTokens(), lit, dist), 0x59000d889, 43)
  {
    FixedTokensFit(lit, dist);
    var one, two := [THREE], [TWENTY, THREE];
    assert FixedTokens()[1..] == two && two[1..] == one && one[1..] == [];
    assert EncodeTokens(one, lit, dist) == EncodeToken(THREE, lit, dist) + CodeBits(lit, 256);
    assert EncodeTokens(two, lit, dist) == EncodeToken(TWENTY, lit, dist) + EncodeTokens(one, lit, dist);
    assert EncodeTokens(FixedTokens(), lit, dist) == CodeBits(lit, 97) + EncodeTokens(two, lit, dist);
    PowersUpTo13();
    ShiftedByte(0x59000d8);
    hide CodeBits, Reads, EncodeTokens, EncodeToken, Pow2, Encodable, Shl;
    ThreeReads(lit, dist, THREE);
    TwentyReads(lit, dist, TWENTY, EncodeTokens(one, lit, dist));
    Put(CodeBits(lit, 97), 137, 8, EncodeTokens(two, lit, dist), 0x59000d8, 35);
  }

  // ---- what they expand to --------------------------------------------------------------------------

  lemma {:induction false} CopyOfSame(n: nat, v: Byte, distance: nat, length: nat)
    requires 1 <= distance <= n
    ensures CopyBack(Fill(n, v), distance, length) == Fill(n + length, v)
    decreases length
  {
    if length > 0 {
      assert Fill(n, v) + [v] == Fill(n + 1, v);
      CopyOfSame(n + 1, v, distance, length - 1);
    }
  }

  lemma ExpandMatch(t: Token, more: seq<Token>, out: seq<Byte>)
    requires t.Match? && ValidToken(t) && 1 <= MatchDistance(t) <= |out| && forall u :: u in more ==> ValidToken(u)
    ensures forall u :: u in [t] + more ==> ValidToken(u)
    ensures Expand([t] + more, out) == Expand(more, CopyBack(out, MatchDistance(t), MatchLength(t)))
  {
    assert ([t] + more)[1..] == more;
    hide ValidToken, MatchDistance, MatchLength, CopyBack;
  }

  lemma FixedTokensExpand(ts: seq<Token>)
    requires ts == FixedTokens()
    ensures forall t :: t in ts ==> ValidToken(t)
    ensures Expand(ts, []) == Some(Fill(24, 97))
  {
    hide *;
    var one, two := [THREE] + [], [TWENTY] + ([THREE] + []);
    FixedTokensSplit(ts);
    TwentyIs();
    ThreeIs();
    CopyOfSame(1, 97, 1, 20);
    CopyOfSame(21, 97, 10, 3);
    NothingExpands(Fill(24, 97));
    ExpandMatch(THREE, [], Fill(21, 97));
    ExpandMatch(TWENTY, one, Fill(1, 97));
    LiteralFirst(two, ts, Fill(24, 97));
  }

  lemma FixedTokensSplit(ts: seq<Token>)
    requires ts == FixedTokens()
    ensures ts == [Literal(97)] + ([TWENTY] + ([THREE] + [])) && TWENTY.Match? && THREE.Match?
    ensures |Fill(1, 97)| == 1 && |Fill(21, 97)| == 21
  {
  }

  lemma NothingExpands(out: seq<Byte>)
    ensures Expand([], out) == Some(out)
  {
  }

  lemma LiteralFirst(more: seq<Token>, ts: seq<Token>, out: seq<Byte>)
    requires ts == [Literal(97)] + more && forall t :: t in more ==> ValidToken(t)
    requires Expand(more, Fill(1, 97)) == Some(out)
    ensures forall t :: t in ts ==> ValidToken(t)
    ensures Expand(ts, []) == Some(out)
  {
    assert ts[1..] == more;
    assert [] + [97] == Fill(1, 97);
    assert ValidToken(Literal(97));
    hide ValidToken, Fill;
  }

  // ---- whole streams ----------------------------------------------------------------------------------

  lemma HeaderReads(kind: nat, body: BitString, v: nat, n: nat)
    requires kind < 4 && Reads(body, v, n)
    ensures Reads([true] + LsbBits(kind, 2) + body, 1 + 2 * (kind + 4 * v), n + 3)
  {
    PowersUpTo13();
    IsReading(kind, 2);
    assert Reads([true], 1, 1);
    assert Shl(v, 2) == 2 * Shl(v, 1) == 4 * v;
    assert Shl(kind + 4 * v, 1) == 2 * (kind + 4 * v);
    hide Reads, LsbBits, Shl, Pow2;
    Put(LsbBits(kind, 2), kind, 2, body, v, n);
    Put([true], 1, 1, LsbBits(kind, 2) + body, kind + 4 * v, n + 2);
    Grouped([true], LsbBits(kind, 2), body);
  }

  lemma NoneAligned(at: nat)
    ensures Aligned([], at)
  {
  }

  lemma OneBlockIsValid(b: Block, bs: seq<Block>)
    requires ValidBlock(b) && !b.StoredBlock? && bs == [b]
    ensures ValidBlocks(bs) && ValidStream(bs)
  {
    hide ValidBlock, EncodeBlock, EncodeStream;
    assert ValidBlocks(bs);
    assert bs[1..] == [];
    NoneAligned(0 + |EncodeBlock(bs[0], |bs| == 1)|);
    assert Aligned(bs, 0);
  }

  lemma OneBlockIs(b: Block, bs: seq<Block>)
    requires ValidBlock(b) && bs == [b] && ValidBlocks(bs)
    ensures EncodeStream(bs) == [true] + LsbBits(BlockType(b), 2) + BlockBody(b)
    ensures StreamMeaning(bs, []) == BlockMeaning(b, [])
  {
    hide BlockBody, ValidBlock, BlockMeaning, LsbBits, BlockType;
    var none := bs[1..];
    assert none == [];
    assert EncodeStream(none) == [];
    var e := EncodeBlock(b, true);
    assert EncodeStream(bs) == e + EncodeStream(none) == e;
  }

  lemma ReadsLength(s: BitString, v: nat, n: nat)
    requires Reads(s, v, n)
    ensures |s| == n
  {
  }

  /** A stream of one block that reads as the number of the bytes. */
  lemma OneBlock(b: Block, bs: seq<Block>, kind: nat, v: nat, n: nat, data: seq<Byte>)
    requires ValidBlock(b) && !b.StoredBlock? && BlockType(b) == kind < 4 && bs == [b]
    requires Reads(BlockBody(b), v, n) && n + 3 <= 8 * |data| && Number(data) == 1 + 2 * (kind + 4 * v)
    ensures ValidStream(bs) && EncodeStream(bs) <= StreamBits(data) && |EncodeStream(bs)| == n + 3
    ensures StreamMeaning(bs, []) == BlockMeaning(b, [])
  {
    hide *;
    OneBlockIsValid(b, bs);
    OneBlockIs(b, bs);
    HeaderReads(kind, BlockBody(b), v, n);
    ReadsLength(BlockBody(b), v, n);
    StandsIn(EncodeStream(bs), n + 3, data);
  }

  lemma NumberStep(data: seq<Byte>, k: nat)
    requires k < |data|
    ensures Number(data[k..]) == data[k] + 256 * Number(data[k + 1..])
  {
    assert data[k..][1..] == data[k + 1..];
  }

  lemma FixedNumber(data: seq<Byte>)
    requires data == [0x4B, 0xC4, 0x06, 0x80, 0x2C, 0x00]
    ensures Number(data) == 0x2c8006c44b
  {
    assert Number(data[6..]) == 0 && data[0..] == data;
    hide Number;
    NumberStep(data, 5);
    NumberStep(data, 4);
    NumberStep(data, 3);
    NumberStep(data, 2);
    NumberStep(data, 1);
    NumberStep(data, 0);
  }

  lemma FixedBlockReads(b: Block)
    requires b == FixedBlock(FixedTokens())
    ensures ValidBlock(b) && Reads(BlockBody(b), 0x59000d889, 43)
    ensures BlockMeaning(b, []) == Some(Fill(24, 97))
  {
    hide FixedLiteral, FixedDistance, LiteralsRead, DistancesRead, Reads, EncodeTokens, AllEncodable, FixedTokens, Expand, Fill;
    FixedLiteralsRead(FixedLiteral());
    FixedDistancesRead(FixedDistance());
    FixedTokensRead(FixedLiteral(), FixedDistance());
    FixedTokensExpand(FixedTokens());
  }

  lemma FixedData(data: seq<Byte>, b: Block)
    requires data == [0x4B, 0xC4, 0x06, 0x80, 0x2C, 0x00] && b == FixedBlock(FixedTokens())
    ensures |data| == 6 && !b.StoredBlock? && BlockType(b) == 1
  {
  }

  /** Six bytes of a fixed block: twenty-four times the letter a, if there is room. */
  lemma FixedVector(data: seq<Byte>, cap: nat)
    requires data == [0x4B, 0xC4, 0x06, 0x80, 0x2C, 0x00]
    ensures Inflate(data, cap) == if cap >= 24 then Ok(Inflated(Fill(24, 97), 6)) else Err(TooMany)
  {
    hide *;
    var b := FixedBlock(FixedTokens());
    FixedData(data, b);
    FixedNumber(data);
    FixedBlockReads(b);
    OneBlock(b, [b], 1, 0x59000d889, 43, data);
    StreamRoundTrip([b], data, cap);
  }

  // ---- a stored block and an empty one ----------------------------------------------------------------

  lemma EmptyBlockReads(b: Block)
    requires b == FixedBlock([])
    ensures ValidBlock(b) && Reads(EncodeBlock(b, true), 3, 10)
  {
    hide *;
    FixedLiteralsRead(FixedLiteral());
    EmptyBody(b, FixedLiteral(), FixedDistance());
    HeaderReads(1, BlockBody(b), 0, 7);
  }

  lemma EmptyBody(b: Block, lit: Lengths, dist: Lengths)
    requires b == FixedBlock([]) && lit == FixedLiteral() && dist == FixedDistance() && LiteralsRead(lit)
    ensures ValidBlock(b) && Reads(BlockBody(b), 0, 7)
    ensures EncodeBlock(b, true) == [true] + LsbBits(1, 2) + BlockBody(b)
  {
    hide FixedLiteral, FixedDistance, CodeBits, Reads;
  }

  lemma ZeroByte(zero: seq<Byte>)
    requires zero == [0]
    ensures StreamBits(zero) == [false] + LsbBits(0, 2) + [false, false, false, false, false]
  {
    assert zero[1..] == [] && LsbBits(0, 8) == [false, false, false, false, false, false, false, false];
    assert LsbBits(0, 2) == [false, false];
    assert StreamBits(zero) == LsbBits(0, 8) + [];
    hide StreamBits, LsbBits;
  }

  lemma StoredBytesAre()
    ensures StoredBytes([97]) == [0x01, 0x00, 0xFE, 0xFF, 0x61]
  {
  }

  /** The letter a stored: the type, five bits to the end of the byte, its length twice. */
  lemma StoredBlockIs(b: Block)
    requires b == StoredBlock([false, false, false, false, false], [97])
    ensures ValidBlock(b) && EncodeBlock(b, false) == StreamBits([0x00, 0x01, 0x00, 0xFE, 0xFF, 0x61])
  {
    hide StreamBits, LsbBits, StoredBytes;
    var zero: seq<Byte>, bytes: seq<Byte> := [0], [0x01, 0x00, 0xFE, 0xFF, 0x61];
    ZeroByte(zero);
    StoredBytesAre();
    StreamBitsConcat(zero, bytes);
    assert zero + bytes == [0x00, 0x01, 0x00, 0xFE, 0xFF, 0x61];
    assert EncodeBlock(b, false) == [false] + LsbBits(0, 2) + (b.pad + StreamBits(bytes));
    Grouped([false] + LsbBits(0, 2), b.pad, StreamBits(bytes));
  }

  lemma TwoBlocks(a: Block, b: Block, bs: seq<Block>)
    requires ValidBlock(a) && a.StoredBlock? && |a.pad| == 5 && ValidBlock(b) && !b.StoredBlock? && bs == [a, b]
    ensures ValidBlocks(bs) && ValidStream(bs) && EncodeStream(bs) == EncodeBlock(a, false) + EncodeBlock(b, true)
  {
    var tail := bs[1..];
    assert tail == [b] && tail[1..] == [];
    assert ValidBlocks(bs) && ValidBlocks(tail);
    TwoAligned(a, b, bs, tail);
    hide ValidBlock, EncodeBlock, Aligned;
    assert EncodeStream(tail[1..]) == [];
    assert EncodeStream(tail) == EncodeBlock(b, true) + [];
  }

  lemma TwoAligned(a: Block, b: Block, bs: seq<Block>, tail: seq<Block>)
    requires a.StoredBlock? && |a.pad| == 5 && !b.StoredBlock? && bs == [a, b] && tail == [b] && ValidBlocks(bs)
    ensures ValidBlocks(tail) && Aligned(bs, 0)
  {
    hide ValidBlock, EncodeBlock;
    var at := |EncodeBlock(a, false)|;
    assert tail[1..] == [] && bs[1..] == tail;
    NoneAligned(at + |EncodeBlock(b, true)|);
    assert Aligned(tail, at);
  }

  lemma TwoMean(bs: seq<Block>)
    requires bs == [StoredBlock([false, false, false, false, false], [97]), FixedBlock([])] && ValidBlocks(bs)
    ensures StreamMeaning(bs, []) == Some([97])
  {
    var tail := bs[1..];
    assert tail == [FixedBlock([])] && tail[1..] == [];
    assert [] + [97] == [97];
    hide ValidBlock;
    assert StreamMeaning(tail[1..], [97]) == Some([97]);
    assert StreamMeaning(tail, [97]) == Some([97]);
  }

  /** A stored block that is not the last and an empty fixed one that is. */
  lemma StoredVector(data: seq<Byte>, cap: nat)
    requires data == [0x00, 0x01, 0x00, 0xFE, 0xFF, 0x61, 0x03, 0x00]
    ensures Inflate(data, cap) == if cap >= 1 then Ok(Inflated([97], 8)) else Err(TooMany)
  {
    hide *;
    var first: seq<Byte>, last: seq<Byte> := [0x00, 0x01, 0x00, 0xFE, 0xFF, 0x61], [0x03, 0x00];
    var a, b := StoredBlock([false, false, false, false, false], [97]), FixedBlock([]);
    assert data == first + last;
    StoredBlockIs(a);
    EmptyBlockReads(b);
    EmptyNumber(last);
    StandsIn(EncodeBlock(b, true), 10, last);
    ReadsLength(EncodeBlock(b, true), 3, 10);
    StreamBitsConcat(first, last);
    TwoBlocks(a, b, [a, b]);
    TwoMean([a, b]);
    StreamRoundTrip([a, b], data, cap);
  }

  lemma EmptyNumber(data: seq<Byte>)
    requires data == [0x03, 0x00]
    ensures Number(data) == 3
  {
    assert Number(data[2..]) == 0 && data[0..] == data;
    NumberStep(data, 1);
    NumberStep(data, 0);
  }
}
