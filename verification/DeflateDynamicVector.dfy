/** A known answer for a block with its own tables: fifteen bytes, worked out from the bits. */
module DeflateDynamicVector {
  import opened Options
  import opened Bits
  import opened CanonicalCode
  import opened HuffmanTables
  import opened Lz77
  import opened DeflateFormat
  import opened DeflateDecoder
  import opened DeflateTheorems
  import opened DeflateLaws
  import opened DeflateVectors

  // ---- the code-length code -------------------------------------------------------------------------

  /** Three bits for 16 and 17, two for 18, 2 and 1. */
  function Order(): seq<nat> {
    [3, 3, 2, 0, 0, 0, 0, 0, 0, 0, 0, 0, 0, 0, 0, 2, 0, 2]
  }

  ghost predicate ClcIs(clc: Lengths) {
    && |clc| == 19 && clc[1] == clc[2] == clc[18] == 2 && clc[16] == clc[17] == 3
    && forall c :: 0 <= c < 19 && c !in {1, 2, 16, 17, 18} ==> clc[c] == 0
  }

  lemma OrderGives()
    ensures |Order()| == 18 && (forall i :: 0 <= i < |Order()| ==> Order()[i] < 8) && ClcIs(ClcLengths(Order()))
  {
    ClcLengthsLand(Order());
    var clc := ClcLengths(Order());
    forall c | 0 <= c < 19
      ensures clc[c] == if c == 16 || c == 17 then 3 else if c == 18 || c == 1 || c == 2 then 2 else 0
    {
      var k := if c >= 16 then c - 16 else if c == 0 then 3 else if c >= 8 then 4 + 2 * (c - 8) else 3 + 2 * (8 - c);
      assert Transmitted(k) == c;
    }
  }

  /** The five codes: 00, 01, 10, 110, 111. */
  lemma ClcCodes(clc: Lengths)
    requires ClcIs(clc)
    ensures Coded(clc, 1) && Coded(clc, 2) && Coded(clc, 18) && Coded(clc, 16) && Coded(clc, 17)
    ensures Code(clc, 1) == 0 && Code(clc, 2) == 1 && Code(clc, 18) == 2 && Code(clc, 16) == 6 && Code(clc, 17) == 7
    ensures Kraft(clc)
  {
    PowersUpTo13();
    assert forall c :: 0 <= c < 19 ==> (Coded(clc, c) <==> c in {1, 2, 16, 17, 18});
    hide Code, Kraft, Pow2;
    CodesStartAtZero(clc, 1);
    CodesFollow(clc, 1, 2);
    CodesFollow(clc, 2, 18);
    CodesFollow(clc, 18, 16);
    CodesFollow(clc, 16, 17);
    LastCodeFits(clc, 17);
  }

  lemma ClcReads(clc: Lengths)
    requires ClcIs(clc)
    ensures Coded(clc, 1) && Coded(clc, 2) && Coded(clc, 18) && Coded(clc, 16) && Coded(clc, 17)
    ensures Reads(CodeBits(clc, 1), 0, 2) && Reads(CodeBits(clc, 2), 2, 2) && Reads(CodeBits(clc, 18), 1, 2)
    ensures Reads(CodeBits(clc, 16), 3, 3) && Reads(CodeBits(clc, 17), 7, 3)
  {
    ClcCodes(clc);
    SmallNumbers();
    hide Code, Turned, Reads, MsbBits, Kraft;
    CodeReads(clc, 1, 0, 2, 0);
    CodeReads(clc, 2, 1, 2, 2);
    CodeReads(clc, 18, 2, 2, 1);
    CodeReads(clc, 16, 6, 3, 3);
    CodeReads(clc, 17, 7, 3, 7);
  }

  lemma SmallNumbers()
    ensures Turned(0, 1) == 0 && Turned(0, 2) == 0 && Turned(1, 2) == 2 && Turned(2, 2) == 1 && Turned(3, 2) == 3
    ensures Turned(6, 3) == 3 && Turned(7, 3) == 7
  {
    PowersUpTo13();
  }

  // ---- the lengths transmitted with it ----------------------------------------------------------------

  /** 97 zeros, a one, 158 zeros in three pieces, six twos. */
  function Ops(): seq<LengthOp> {
    [LongZeros(86)] + ([One(1)] + ([LongZeros(127)] + ([LongZeros(0)] + ([Zeros(6)] + ([One(2)] + ([Repeat(2)] + []))))))
  }

  ghost predicate AllIs(all: Lengths) {
    |all| == 262 && forall i :: 0 <= i < 262 ==> all[i] == if i < 97 then 0 else if i == 97 then 1 else if i < 256 then 0 else 2
  }

  lemma ApplyFirst(op: LengthOp, more: seq<LengthOp>, acc: Lengths, next: Lengths, all: Lengths)
    requires ValidOp(op) && ApplyOp(op, acc) == Some(next)
    requires (forall o :: o in more ==> ValidOp(o)) && ApplyOps(more, next) == Some(all)
    ensures (forall o :: o in [op] + more ==> ValidOp(o)) && ApplyOps([op] + more, acc) == Some(all)
  {
    assert ([op] + more)[1..] == more;
    hide ApplyOp;
  }

  lemma OpsGive(a: Lengths, b: Lengths, c: Lengths, d: Lengths, e: Lengths, f: Lengths, all: Lengths)
    requires a == Fill(97, 0) && b == a + [1] && c == b + Fill(138, 0) && d == c + Fill(11, 0) && e == d + Fill(9, 0)
    requires f == e + [2] && all == f + Fill(5, 2)
    ensures (forall o :: o in Ops() ==> ValidOp(o)) && ApplyOps(Ops(), []) == Some(all)
  {
    hide *;
    var o7, o6 := [Repeat(2)] + [], [One(2)] + ([Repeat(2)] + []);
    var o5 := [Zeros(6)] + o6;
    var o4 := [LongZeros(0)] + o5;
    var o3 := [LongZeros(127)] + o4;
    var o2 := [One(1)] + o3;
    ApplyNone(all);
    LongRun(86, [], a);
    LongRun(127, b, c);
    LongRun(0, c, d);
    ShortRuns(a, b, d, e, f, all);
    ApplyFirst(Repeat(2), [], f, all, all);
    ApplyFirst(One(2), o7, e, f, all);
    ApplyFirst(Zeros(6), o6, d, e, all);
    ApplyFirst(LongZeros(0), o5, c, d, all);
    ApplyFirst(LongZeros(127), o4, b, c, all);
    ApplyFirst(One(1), o3, a, b, all);
    ApplyFirst(LongZeros(86), o2, [], a, all);
    OpsAre();
  }

  lemma ApplyNone(acc: Lengths)
    ensures ApplyOps([], acc) == Some(acc)
  {
  }

  lemma LongRun(x: nat, acc: Lengths, next: Lengths)
    requires x < 128 && next == acc + Fill(11 + x, 0)
    ensures ValidOp(LongZeros(x)) && ApplyOp(LongZeros(x), acc) == Some(next)
  {
  }

  lemma ShortRuns(a: Lengths, b: Lengths, d: Lengths, e: Lengths, f: Lengths, all: Lengths)
    requires b == a + [1] && e == d + Fill(9, 0) && f == e + [2] && all == f + Fill(5, 2)
    ensures ValidOp(One(1)) && ApplyOp(One(1), a) == Some(b)
    ensures ValidOp(Zeros(6)) && ApplyOp(Zeros(6), d) == Some(e)
    ensures ValidOp(One(2)) && ApplyOp(One(2), e) == Some(f)
    ensures ValidOp(Repeat(2)) && ApplyOp(Repeat(2), f) == Some(all)
  {
    assert f[|f| - 1] == 2;
    hide Fill;
  }

  lemma OpsAre()
    ensures Ops() == [LongZeros(86)] + ([One(1)] + ([LongZeros(127)] + ([LongZeros(0)] + ([Zeros(6)]
      + ([One(2)] + ([Repeat(2)] + []))))))
  {
  }

  lemma OpsGiveAll() returns (all: Lengths)
    ensures (forall o :: o in Ops() ==> ValidOp(o)) && ApplyOps(Ops(), []) == Some(all) && AllIs(all)
  {
    var a: Lengths := Fill(97, 0);
    var b: Lengths := a + [1];
    var c: Lengths := b + Fill(138, 0);
    var d: Lengths := c + Fill(11, 0);
    var e: Lengths := d + Fill(9, 0);
    var f: Lengths := e + [2];
    all := f + Fill(5, 2);
    assert AllIs(all);
    hide *;
    OpsGive(a, b, c, d, e, f, all);
  }

  /** The literal codes 0, 10 and 11. */
  lemma LiteralTable(lit: Lengths)
    requires |lit| == 258 && lit[97] == 1 && lit[256] == lit[257] == 2
    requires forall c :: 0 <= c < 258 ==> (Coded(lit, c) <==> c in {97, 256, 257})
    ensures Reads(CodeBits(lit, 97), 0, 1) && Reads(CodeBits(lit, 256), 1, 2) && Reads(CodeBits(lit, 257), 3, 2)
    ensures Kraft(lit)
  {
    SmallNumbers();
    PowersUpTo13();
    hide Code, Turned, Reads, MsbBits, Kraft, Pow2;
    CodesStartAtZero(lit, 97);
    CodesFollow(lit, 97, 256);
    CodesFollow(lit, 256, 257);
    LastCodeFits(lit, 257);
    CodeReads(lit, 97, 0, 1, 0);
    CodeReads(lit, 256, 2, 2, 1);
    CodeReads(lit, 257, 3, 2, 3);
  }

  /** The distance codes 00, 01, 10 and 11. */
  lemma DistanceTable(dist: Lengths)
    requires |dist| == 4 && forall c :: 0 <= c < 4 ==> dist[c] == 2
    ensures Reads(CodeBits(dist, 0), 0, 2) && Kraft(dist)
  {
    SmallNumbers();
    PowersUpTo13();
    hide Code, Turned, Reads, MsbBits, Kraft, Pow2;
    CodesStartAtZero(dist, 0);
    CodesFollow(dist, 0, 1);
    CodesFollow(dist, 1, 2);
    CodesFollow(dist, 2, 3);
    LastCodeFits(dist, 3);
    CodeReads(dist, 0, 0, 2, 0);
  }

  // ---- the header in bits -------------------------------------------------------------------------------

  lemma FirstOp(op: LengthOp, more: seq<LengthOp>, clc: Lengths)
    requires (forall o :: o in more ==> Coded(clc, OpSymbol(o))) && Coded(clc, OpSymbol(op))
    ensures forall o :: o in [op] + more ==> Coded(clc, OpSymbol(o))
    ensures EncodeOps([op] + more, clc) == CodeBits(clc, OpSymbol(op)) + OpExtraBits(op) + EncodeOps(more, clc)
  {
    assert ([op] + more)[1..] == more;
    hide CodeBits, OpExtraBits, OpSymbol, Coded;
  }

  /** One length operation in front of the rest. */
  lemma PutOp(op: LengthOp, more: seq<LengthOp>, clc: Lengths, c: nat, cn: nat, x: nat, xn: nat,
              rest: BitString, w: nat, n: nat, r: nat)
    requires (forall o :: o in more ==> Coded(clc, OpSymbol(o))) && Coded(clc, OpSymbol(op))
    requires Reads(CodeBits(clc, OpSymbol(op)), c, cn) && c < Pow2(cn)
    requires Reads(OpExtraBits(op), x, xn) && x < Pow2(xn)
    requires Reads(EncodeOps(more, clc) + rest, w, n) && r == c + Shl(x + Shl(w, xn), cn)
    ensures forall o :: o in [op] + more ==> Coded(clc, OpSymbol(o))
    ensures Reads(EncodeOps([op] + more, clc) + rest, r, cn + (xn + n))
  {
    hide *;
    FirstOp(op, more, clc);
    var a, b, m := CodeBits(clc, OpSymbol(op)), OpExtraBits(op), EncodeOps(more, clc);
    Put(b, x, xn, m + rest, w, n);
    Put(a, c, cn, b + (m + rest), x + Shl(w, xn), xn + n);
    Grouped(a, b, m + rest);
    Grouped(a + b, m, rest);
  }

  lemma ExtrasRead()
    ensures Reads(OpExtraBits(One(1)), 0, 0) && Reads(OpExtraBits(One(2)), 0, 0)
    ensures Reads(OpExtraBits(Repeat(2)), 2, 2) && Reads(OpExtraBits(Zeros(6)), 6, 3)
    ensures forall x :: 0 <= x < 128 ==> Reads(OpExtraBits(LongZeros(x)), x, 7)
  {
  }

  lemma OpSymbolsAre()
    ensures OpSymbol(One(1)) == 1 && OpSymbol(One(2)) == 2 && OpSymbol(Repeat(2)) == 16 && OpSymbol(Zeros(6)) == 17
    ensures forall x :: OpSymbol(LongZeros(x)) == 18
  {
  }

  lemma OpNumbers()
    ensures 1235 == 3 + Shl(2 + Shl(38, 2), 3) && 4942 == 2 + Shl(0 + Shl(1235, 0), 2)
    ensures 316343 == 7 + Shl(6 + Shl(4942, 3), 3)
    ensures 161967617 == 1 + Shl(0 + Shl(316343, 7), 2)
    ensures 82927420413 == 1 + Shl(127 + Shl(161967617, 7), 2)
    ensures 331709681652 == 0 + Shl(0 + Shl(82927420413, 0), 2)
    ensures 169835357006169 == 1 + Shl(86 + Shl(331709681652, 7), 2)
  {
    assert forall v: nat :: Shl(v, 2) == 4 * v && Shl(v, 3) == 8 * v && Shl(v, 0) == v && Shl(v, 7) == 128 * v by {
      forall v: nat ensures Shl(v, 2) == 4 * v && Shl(v, 3) == 8 * v && Shl(v, 0) == v && Shl(v, 7) == 128 * v {
        assert Shl(v, 1) == 2 * v && Shl(v, 3) == 2 * Shl(v, 2) && Shl(v, 5) == 4 * Shl(v, 3) && Shl(v, 7) == 4 * Shl(v, 5);
      }
    }
  }

  /** All seven operations in front of what follows the header. */
  lemma OpsRead(clc: Lengths, rest: BitString)
    requires ClcIs(clc) && Reads(rest, 38, 7)
    ensures forall o :: o in Ops() ==> Coded(clc, OpSymbol(o))
    ensures Reads(EncodeOps(Ops(), clc) + rest, 169835357006169, 49)
  {
    hide *;
    var o7, o6 := [Repeat(2)] + [], [One(2)] + ([Repeat(2)] + []);
    var o5 := [Zeros(6)] + o6;
    var o4 := [LongZeros(0)] + o5;
    var o3 := [LongZeros(127)] + o4;
    var o2 := [One(1)] + o3;
    ClcReads(clc);
    ExtrasRead();
    OpSymbolsAre();
    OpNumbers();
    PowersUpTo13();
    NoOps(clc, rest);
    PutOp(Repeat(2), [], clc, 3, 3, 2, 2, rest, 38, 7, 1235);
    PutOp(One(2), o7, clc, 2, 2, 0, 0, rest, 1235, 12, 4942);
    PutOp(Zeros(6), o6, clc, 7, 3, 6, 3, rest, 4942, 14, 316343);
    PutOp(LongZeros(0), o5, clc, 1, 2, 0, 7, rest, 316343, 20, 161967617);
    PutOp(LongZeros(127), o4, clc, 1, 2, 127, 7, rest, 161967617, 29, 82927420413);
    PutOp(One(1), o3, clc, 0, 2, 0, 0, rest, 82927420413, 38, 331709681652);
    PutOp(LongZeros(86), o2, clc, 1, 2, 86, 7, rest, 331709681652, 40, 169835357006169);
    OpsAre();
  }

  lemma NoOps(clc: Lengths, rest: BitString)
    ensures EncodeOps([], clc) + rest == rest
  {
  }

  /** Three bits for every length in front of the rest. */
  function OrderNumber(order: seq<nat>, w: nat): nat {
    if order == [] then w else order[0] + 8 * OrderNumber(order[1..], w)
  }

  lemma {:induction false} OrderReads(order: seq<nat>, rest: BitString, w: nat, n: nat)
    requires (forall i :: 0 <= i < |order| ==> order[i] < 8) && Reads(rest, w, n)
    ensures Reads(EncodeOrder(order) + rest, OrderNumber(order, w), 3 * |order| + n)
  {
    if order == [] {
      assert EncodeOrder(order) + rest == rest;
    } else {
      var more := order[1..];
      OrderReads(more, rest, w, n);
      PowersUpTo13();
      IsReading(order[0], 3);
      var v := OrderNumber(more, w);
      assert Shl(v, 3) == 2 * Shl(v, 2) && Shl(v, 1) == 2 * v;
      hide Reads, LsbBits, Shl;
      Put(LsbBits(order[0], 3), order[0], 3, EncodeOrder(more) + rest, v, 3 * |more| + n);
      Grouped(LsbBits(order[0], 3), EncodeOrder(more), rest);
    }
  }

  lemma OrderStep(order: seq<nat>, k: nat, w: nat)
    requires k < |order|
    ensures OrderNumber(order[k..], w) == order[k] + 8 * OrderNumber(order[k + 1..], w)
  {
    assert order[k..][1..] == order[k + 1..];
  }

  lemma {:induction false} OrderZeros(order: seq<nat>, k: nat, m: nat, w: nat)
    requires k <= m <= |order| && forall i :: k <= i < m ==> order[i] == 0
    ensures OrderNumber(order[k..], w) == Shl(OrderNumber(order[m..], w), 3 * (m - k))
    decreases m - k
  {
    if k < m {
      OrderZeros(order, k + 1, m, w);
      OrderStep(order, k, w);
      var v, n := OrderNumber(order[m..], w), 3 * (m - k);
      assert Shl(v, n) == 2 * Shl(v, n - 1) == 4 * Shl(v, n - 2) == 8 * Shl(v, n - 3);
    }
  }

  lemma OrderIsNumber(order: seq<nat>)
    requires order == Order()
    ensures OrderNumber(order, 169835357006169) == 3059481802109276036081653907611
  {
    var w := 169835357006169;
    assert OrderNumber(order[18..], w) == w && order[0..] == order;
    hide OrderNumber;
    OrderStep(order, 17, w);
    OrderStep(order, 16, w);
    OrderStep(order, 15, w);
    assert OrderNumber(order[15..], w) == 86955702787158658;
    OrderZeros(order, 3, 15, w);
    ShiftedFar(86955702787158658);
    OrderStep(order, 2, w);
    OrderStep(order, 1, w);
    OrderStep(order, 0, w);
  }

  lemma ShiftedFar(v: nat)
    ensures Shl(v, 36) == 0x10_0000_0000 * v
  {
    ShiftedByte(v);
    ShlTwice(v, 8, 8);
    ShiftedByte(Shl(v, 8));
    ShlTwice(v, 16, 8);
    ShiftedByte(Shl(v, 16));
    ShlTwice(v, 24, 8);
    ShiftedByte(Shl(v, 24));
    var u := Shl(v, 32);
    ShlTwice(v, 32, 4);
    assert Shl(u, 4) == 2 * Shl(u, 3) == 4 * Shl(u, 2) == 8 * Shl(u, 1) == 16 * u;
  }

  lemma {:induction false} ShlTwice(v: nat, m: nat, n: nat)
    ensures Shl(Shl(v, m), n) == Shl(v, m + n)
  {
    if n > 0 {
      ShlTwice(v, m, n - 1);
    }
  }

  // ---- the block ------------------------------------------------------------------------------------------

  function TheHeader(): Header {
    Header(258, 4, Order(), Ops())
  }

  /** The letter a, and three bytes from one back. */
  function Tokens(): seq<Token> {
    [Literal(97)] + ([Match(0, 0, 0, 0)] + [])
  }

  lemma HeaderIsValid(h: Header, all: Lengths)
    requires h == TheHeader() && (forall o :: o in Ops() ==> ValidOp(o)) && ApplyOps(Ops(), []) == Some(all) && AllIs(all)
    ensures ValidHeader(h) && HeaderLiteral(h) == all[..258] && HeaderDistance(h) == all[258..]
  {
    hide *;
    AllLong(all);
    OrderGives();
    ClcCodes(ClcLengths(Order()));
    OpsCoded(ClcLengths(Order()));
    TablesAreCodes(all, all[..258], all[258..]);
    HeaderHolds(h, Ops(), ClcLengths(Order()), all, all[..258], all[258..]);
  }

  lemma HeaderHolds(h: Header, ops: seq<LengthOp>, clc: Lengths, all: Lengths, lit: Lengths, dist: Lengths)
    requires h == TheHeader() && ops == Ops() && clc == ClcLengths(Order()) && |all| == 262
    requires lit == all[..258] && dist == all[258..] && Kraft(clc) && Kraft(lit) && Kraft(dist)
    requires (forall o :: o in ops ==> ValidOp(o) && Coded(clc, OpSymbol(o))) && ApplyOps(ops, []) == Some(all)
    ensures ValidHeader(h) && HeaderLiteral(h) == lit && HeaderDistance(h) == dist
  {
    hide Kraft, ApplyOps, Ops, Coded, ValidOp, OpSymbol, ClcLengths;
  }

  lemma TablesAreCodes(all: Lengths, lit: Lengths, dist: Lengths)
    requires AllIs(all) && lit == all[..258] && dist == all[258..]
    ensures Kraft(lit) && Kraft(dist)
  {
    assert forall c :: 0 <= c < 258 ==> (Coded(lit, c) <==> c in {97, 256, 257});
    hide Kraft, Code;
    LiteralTable(lit);
    DistanceTable(dist);
  }

  lemma OpsCoded(clc: Lengths)
    requires ClcIs(clc)
    ensures forall o :: o in Ops() ==> Coded(clc, OpSymbol(o))
  {
  }

  /** What the four codes used read as. */
  ghost predicate TablesRead(lit: Lengths, dist: Lengths) {
    && |lit| == 258 && lit[97] == 1 && lit[256] == lit[257] == 2 && |dist| == 4 && dist[0] == 2
    && Reads(CodeBits(lit, 97), 0, 1) && Reads(CodeBits(lit, 256), 1, 2) && Reads(CodeBits(lit, 257), 3, 2)
    && Reads(CodeBits(dist, 0), 0, 2)
  }

  lemma NearReads(t: Token, lit: Lengths, dist: Lengths)
    requires TablesRead(lit, dist) && t == Match(0, 0, 0, 0)
    ensures Encodable(t, lit, dist) && Reads(EncodeToken(t, lit, dist) + CodeBits(lit, 256), 19, 6)
  {
    hide LenExtra, DistExtra, CodeBits, Reads, Pow2, MatchNumber, EncodeToken;
    NearIs(t);
    PowersUpTo13();
    NearNumbers();
    assert Encodable(t, lit, dist);
    var p, r := CodeBits(lit, 257), CodeBits(dist, 0);
    assert p == CodeBits(lit, 257 + t.lengthCode) && r == CodeBits(dist, t.distCode);
    assert t.lengthExtra == 0 && t.distExtra == 0 && LenExtra(t.lengthCode) == 0 && DistExtra(t.distCode) == 0;
    assert Reads(p, 3, 2) && Reads(r, 0, 2) && Reads(CodeBits(lit, 256), 1, 2);
    hide *;
    PutMatch(t, lit, dist, p, 3, 2, 0, r, 0, 2, 0, CodeBits(lit, 256), 1, 2);
  }

  lemma TokensRead(lit: Lengths, dist: Lengths)
    requires TablesRead(lit, dist)
    ensures AllEncodable(Tokens(), lit, dist) && Reads(EncodeTokens(Tokens(), lit, dist), 38, 7)
  {
    var t, one := Match(0, 0, 0, 0), [Match(0, 0, 0, 0)] + [];
    hide CodeBits, Reads, Encodable, EncodeToken;
    NearReads(t, lit, dist);
    NearNumbers();
    PowersUpTo13();
    LiteralIs(lit, dist);
    assert one[1..] == [] && Tokens()[1..] == one;
    assert AllEncodable(one, lit, dist) && AllEncodable(Tokens(), lit, dist);
    assert EncodeTokens(one, lit, dist) == EncodeToken(t, lit, dist) + CodeBits(lit, 256);
    assert EncodeTokens(Tokens(), lit, dist) == CodeBits(lit, 97) + EncodeTokens(one, lit, dist);
    hide EncodeTokens, AllEncodable, Pow2;
    Put(CodeBits(lit, 97), 0, 1, EncodeTokens(one, lit, dist), 19, 6);
  }

  lemma LiteralIs(lit: Lengths, dist: Lengths)
    requires TablesRead(lit, dist)
    ensures Encodable(Literal(97), lit, dist) && EncodeToken(Literal(97), lit, dist) == CodeBits(lit, 97)
  {
    hide Reads, CodeBits;
  }

  lemma NearNumbers()
    ensures MatchNumber(3, 2, 0, 0, 0, 2, 0, 0, 1) == 19 && Shl(19, 1) == 38
  {
  }

  lemma NearIs(t: Token)
    requires t == Match(0, 0, 0, 0)
    ensures ValidToken(t) && MatchLength(t) == 3 && MatchDistance(t) == 1 && LenExtra(0) == 0 && DistExtra(0) == 0
  {
    LengthCodesAre(0);
    DistanceCodesAre(0);
  }

  /** Five bits, five bits and four bits of counts, then the order and the operations. */
  lemma HeaderReadsAs(h: Header, t: BitString)
    requires h == TheHeader() && ValidHeader(h) && Reads(t, 38, 7)
    ensures Reads(EncodeHeader(h) + t, 50126549845758378575161817622313057, 117)
  {
    var order, ops, clc := Order(), Ops(), ClcLengths(Order());
    var a, b, c, d, e := LsbBits(1, 5), LsbBits(3, 5), LsbBits(14, 4), EncodeOrder(order), EncodeOps(ops, clc);
    assert |order| == 18;
    assert EncodeHeader(h) == a + b + c + d + e;
    OrderGives();
    OrderBelow(order);
    hide *;
    PowersUpTo13();
    OpsRead(clc, t);
    OrderReads(order, e + t, 169835357006169, 49);
    OrderIsNumber(order);
    IsReading(1, 5);
    IsReading(3, 5);
    IsReading(14, 4);
    CountNumbers();
    Put(c, 14, 4, d + (e + t), 3059481802109276036081653907611, 103);
    Put(b, 3, 5, c + (d + (e + t)), 48951708833748416577306462521790, 107);
    Put(a, 1, 5, b + (c + (d + (e + t))), 1566454682679949330473806800697283, 112);
    FiveGrouped(a, b, c, d, e, t);
  }

  lemma OrderBelow(order: seq<nat>)
    requires order == Order()
    ensures forall i :: 0 <= i < |order| ==> order[i] < 8
  {
  }

  lemma FiveGrouped<T>(a: seq<T>, b: seq<T>, c: seq<T>, d: seq<T>, e: seq<T>, t: seq<T>)
    ensures a + (b + (c + (d + (e + t)))) == a + b + c + d + e + t
  {
  }

  lemma CountNumbers()
    ensures 14 + Shl(3059481802109276036081653907611, 4) == 48951708833748416577306462521790
    ensures 3 + Shl(48951708833748416577306462521790, 5) == 1566454682679949330473806800697283
    ensures 1 + Shl(1566454682679949330473806800697283, 5) == 50126549845758378575161817622313057
  {
    forall v: nat ensures Shl(v, 4) == 16 * v && Shl(v, 5) == 32 * v {
      assert Shl(v, 1) == 2 * v && Shl(v, 2) == 2 * Shl(v, 1) && Shl(v, 3) == 2 * Shl(v, 2);
      assert Shl(v, 4) == 2 * Shl(v, 3) && Shl(v, 5) == 2 * Shl(v, 4);
    }
    hide Shl;
  }

  lemma TokensMean(b: Block)
    requires b == DynamicBlock(TheHeader(), Tokens()) && ValidBlock(b)
    ensures BlockMeaning(b, []) == Some([97, 97, 97, 97])
  {
    hide ValidBlock;
    assert (forall t :: t in Tokens() ==> ValidToken(t)) && Expand(Tokens(), []) == Some(Fill(4, 97)) by {
      NearIs(Match(0, 0, 0, 0));
      hide *;
      CopyOfSame(1, 97, 1, 3);
      OneLong();
      NothingExpands(Fill(4, 97));
      ExpandMatch(Match(0, 0, 0, 0), [], Fill(1, 97));
      LiteralFirst([Match(0, 0, 0, 0)] + [], Tokens(), Fill(4, 97));
    }
    assert Fill(4, 97) == [97, 97, 97, 97];
    hide Expand, Tokens;
  }

  lemma OneLong()
    ensures |Fill(1, 97)| == 1 && Tokens() == [Literal(97)] + ([Match(0, 0, 0, 0)] + [])
  {
  }

  lemma BlockReads(b: Block)
    requires b == DynamicBlock(TheHeader(), Tokens())
    ensures ValidBlock(b) && Reads(BlockBody(b), 50126549845758378575161817622313057, 117)
    ensures BlockMeaning(b, []) == Some([97, 97, 97, 97])
  {
    hide *;
    var h := TheHeader();
    var all := OpsGiveAll();
    AllLong(all);
    var lit, dist := all[..258], all[258..];
    HeaderIsValid(h, all);
    TablesAre(all, lit, dist);
    TokensRead(lit, dist);
    BodyIs(b, h, lit, dist);
    HeaderReadsAs(h, EncodeTokens(Tokens(), lit, dist));
    TokensMean(b);
  }

  lemma AllLong(all: Lengths)
    requires AllIs(all)
    ensures |all| == 262
  {
  }

  lemma TablesAre(all: Lengths, lit: Lengths, dist: Lengths)
    requires AllIs(all) && lit == all[..258] && dist == all[258..]
    ensures TablesRead(lit, dist)
  {
    assert forall c :: 0 <= c < 258 ==> (Coded(lit, c) <==> c in {97, 256, 257});
    LiteralTable(lit);
    DistanceTable(dist);
    hide Reads, CodeBits, Kraft;
  }

  lemma BodyIs(b: Block, h: Header, lit: Lengths, dist: Lengths)
    requires b == DynamicBlock(h, Tokens()) && ValidHeader(h) && lit == HeaderLiteral(h) && dist == HeaderDistance(h)
    requires AllEncodable(Tokens(), lit, dist)
    ensures ValidBlock(b) && BlockBody(b) == EncodeHeader(h) + EncodeTokens(Tokens(), lit, dist)
  {
    hide ValidHeader, HeaderLiteral, HeaderDistance, EncodeHeader, EncodeTokens, AllEncodable, Tokens;
  }

  lemma HighNumber(data: seq<Byte>)
    requires data == [0xA0, 0xAC, 0xF4, 0x0F, 0x70, 0x3B, 0x4D]
    ensures Number(data) == 0x4D3B700FF4ACA0
  {
    assert Number(data[7..]) == 0 && data[0..] == data;
    hide Number;
    NumberStep(data, 6);
    NumberStep(data, 5);
    NumberStep(data, 4);
    NumberStep(data, 3);
    NumberStep(data, 2);
    NumberStep(data, 1);
    NumberStep(data, 0);
  }

  lemma TheNumber(data: seq<Byte>, high: seq<Byte>)
    requires high == [0xA0, 0xAC, 0xF4, 0x0F, 0x70, 0x3B, 0x4D]
    requires data == [0x0D, 0xC3, 0x37, 0x01, 0x00, 0x00, 0x00, 0x80] + high
    ensures Number(data) == 401012398766067028601294540978504461 && |data| == 15
  {
    HighNumber(high);
    assert data[8..] == high && data[0..] == data;
    hide Number;
    NumberStep(data, 7);
    NumberStep(data, 6);
    NumberStep(data, 5);
    NumberStep(data, 4);
    NumberStep(data, 3);
    NumberStep(data, 2);
    NumberStep(data, 1);
    NumberStep(data, 0);
  }

  lemma IsDynamic(b: Block)
    requires b == DynamicBlock(TheHeader(), Tokens())
    ensures !b.StoredBlock? && BlockType(b) == 2
  {
  }

  /** Fifteen bytes of a dynamic block: four times the letter a. */
  lemma DynamicVector(data: seq<Byte>, cap: nat)
    requires data == [0x0D, 0xC3, 0x37, 0x01, 0x00, 0x00, 0x00, 0x80, 0xA0, 0xAC, 0xF4, 0x0F, 0x70, 0x3B, 0x4D]
    ensures Inflate(data, cap) == if cap >= 4 then Ok(Inflated([97, 97, 97, 97], 15)) else Err(TooMany)
  {
    hide *;
    var b := DynamicBlock(TheHeader(), Tokens());
    var high: seq<Byte> := [0xA0, 0xAC, 0xF4, 0x0F, 0x70, 0x3B, 0x4D];
    assert data == [0x0D, 0xC3, 0x37, 0x01, 0x00, 0x00, 0x00, 0x80] + high;
    IsDynamic(b);
    TheNumber(data, high);
    BlockReads(b);
    OneBlock(b, [b], 2, 50126549845758378575161817622313057, 117, data);
    StreamRoundTrip([b], data, cap);
  }
}
