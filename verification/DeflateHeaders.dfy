/** The run-length-coded tables of a dynamic block: decoding inverts encoding, and every
    accepted header is the encoding of a valid one. */
module DeflateHeaders {
  import opened Options
  import opened Bits
  import opened CanonicalCode
  import opened HuffmanTables
  import opened Lz77
  import opened DeflateFormat
  import opened DeflateDecoder
  import opened DeflateTokens

  ghost function EncodeOp(op: LengthOp, clc: Lengths): BitString
    requires Coded(clc, OpSymbol(op))
  {
    CodeBits(clc, OpSymbol(op)) + OpExtraBits(op)
  }

  lemma OpRoundTrip(op: LengthOp, clc: Lengths, rest: BitString)
    requires |clc| == 19 && Kraft(clc) && ValidOp(op) && Coded(clc, OpSymbol(op))
    ensures DecodeOp(EncodeOp(op, clc) + rest, clc) == Some((op, rest))
  {
    hide CodeBits, Lookup, LsbBits, LsbValue, Kraft, Pow2;
    var tail := OpExtraBits(op) + rest;
    Associate(CodeBits(clc, OpSymbol(op)), OpExtraBits(op), rest);
    SymbolRoundTrip(clc, OpSymbol(op), tail);
    PowersUpTo13();
    match op
    case One(_) => assert tail == rest;
    case Repeat(x) => ValueRoundTrip(x, 2, rest);
    case Zeros(x) => ValueRoundTrip(x, 3, rest);
    case LongZeros(x) => ValueRoundTrip(x, 7, rest);
  }

  lemma OpSplit(s: BitString, clc: Lengths)
    requires |clc| == 19
    ensures var r := DecodeOp(s, clc); r.Some? ==>
      Coded(clc, OpSymbol(r.value.0)) && s == EncodeOp(r.value.0, clc) + r.value.1
  {
    hide CodeBits, LsbBits, LsbValue, Pow2;
    var r := DecodeOp(s, clc);
    if r.Some? {
      var (op, rest) := r.value;
      var sym := Lookup(clc, s).value;
      assert sym < 19;
      var s1 := s[clc[sym]..];
      SymbolSplit(clc, s);
      if sym < 16 {
        assert s == CodeBits(clc, sym) + [] + s1;
      } else {
        var n := if sym == 16 then 2 else if sym == 17 then 3 else 7;
        ValueSplit(s1, n);
        Associate(CodeBits(clc, sym), OpExtraBits(op), rest);
      }
    }
  }

  lemma {:induction false} ApplyOpsGrow(ops: seq<LengthOp>, acc: Lengths)
    requires forall op :: op in ops ==> ValidOp(op)
    ensures var r := ApplyOps(ops, acc); r.Some? ==>
      acc <= r.value && (ops != [] ==> ApplyOp(ops[0], acc).Some? && |ApplyOp(ops[0], acc).value| <= |r.value|)
    decreases |ops|
  {
    if ops != [] && ApplyOp(ops[0], acc).Some? {
      ApplyOpsGrow(ops[1..], ApplyOp(ops[0], acc).value);
    }
  }

  lemma {:induction false} LengthsRoundTrip(ops: seq<LengthOp>, clc: Lengths, acc: Lengths, all: Lengths,
                                            rest: BitString)
    requires |clc| == 19 && Kraft(clc)
    requires forall op :: op in ops ==> ValidOp(op) && Coded(clc, OpSymbol(op))
    requires ApplyOps(ops, acc) == Some(all)
    ensures DecodeLengths(EncodeOps(ops, clc) + rest, clc, |all|, acc) == Some((all, rest))
    decreases |ops|
  {
    hide CodeBits, Lookup, Kraft, OpExtraBits;
    if ops == [] {
      assert EncodeOps(ops, clc) + rest == rest;
    } else {
      var op := ops[0];
      var s1 := EncodeOps(ops[1..], clc) + rest;
      Associate(EncodeOp(op, clc), EncodeOps(ops[1..], clc), rest);
      OpRoundTrip(op, clc, s1);
      ApplyOpsGrow(ops, acc);
      var next := ApplyOp(op, acc).value;
      LengthsRoundTrip(ops[1..], clc, next, all, rest);
    }
  }

  lemma {:induction false} LengthsSound(s: BitString, clc: Lengths, total: nat, acc: Lengths)
    returns (ops: seq<LengthOp>)
    requires |clc| == 19 && |acc| <= total
    ensures forall op :: op in ops ==> ValidOp(op) && Coded(clc, OpSymbol(op))
    ensures var r := DecodeLengths(s, clc, total, acc); r.Some? ==>
      && ApplyOps(ops, acc) == Some(r.value.0) && |r.value.0| == total
      && s == EncodeOps(ops, clc) + r.value.1
    decreases |s|
  {
    hide CodeBits, Lookup, OpExtraBits;
    ops := [];
    var r := DecodeLengths(s, clc, total, acc);
    if |acc| >= total {
      assert EncodeOps([], clc) + s == s;
    } else if r.Some? {
      OpSplit(s, clc);
      var (op, s1) := DecodeOp(s, clc).value;
      var next := ApplyOp(op, acc).value;
      var more := LengthsSound(s1, clc, total, next);
      ops := [op] + more;
      assert ops[1..] == more;
      Associate(EncodeOp(op, clc), EncodeOps(more, clc), r.value.1);
    }
  }

  lemma {:induction false} OrderRoundTrip(order: seq<nat>, rest: BitString)
    requires forall i :: 0 <= i < |order| ==> order[i] < 8
    ensures DecodeOrder(EncodeOrder(order) + rest, |order|) == order
    ensures (EncodeOrder(order) + rest)[3 * |order|..] == rest
  {
    if order != [] {
      PowersUpTo13();
      var tail := EncodeOrder(order[1..]) + rest;
      Associate(LsbBits(order[0], 3), EncodeOrder(order[1..]), rest);
      ValueRoundTrip(order[0], 3, tail);
      OrderRoundTrip(order[1..], rest);
      assert order == [order[0]] + order[1..];
    }
  }

  lemma {:induction false} OrderSplit(s: BitString, n: nat)
    requires 3 * n <= |s|
    ensures s == EncodeOrder(DecodeOrder(s, n)) + s[3 * n..]
  {
    if n > 0 {
      ValueSplit(s, 3);
      OrderSplit(s[3..], n - 1);
      var order := DecodeOrder(s, n);
      assert order[1..] == DecodeOrder(s[3..], n - 1);
      Associate(LsbBits(order[0], 3), EncodeOrder(order[1..]), s[3..][3 * (n - 1)..]);
      assert s[3..][3 * (n - 1)..] == s[3 * n..];
    }
  }

  /** The three counts at the start of a dynamic block. */
  function EncodeCounts(hlit: nat, hdist: nat, hclen: nat): (s: BitString)
    requires hlit >= 257 && hdist >= 1 && hclen >= 4
    ensures |s| == 14
  {
    LsbBits(hlit - 257, 5) + LsbBits(hdist - 1, 5) + LsbBits(hclen - 4, 4)
  }

  lemma CountsRoundTrip(hlit: nat, hdist: nat, hclen: nat, rest: BitString)
    requires 257 <= hlit <= 286 && 1 <= hdist <= 30 && 4 <= hclen <= 19
    ensures var s := EncodeCounts(hlit, hdist, hclen) + rest;
      && LsbValue(s[..5]) == hlit - 257 && LsbValue(s[5..10]) == hdist - 1 && LsbValue(s[10..14]) == hclen - 4
      && s[14..] == rest
  {
    hide LsbBits, LsbValue;
    PowersUpTo13();
    LsbValueOfBits(hlit - 257, 5);
    LsbValueOfBits(hdist - 1, 5);
    LsbValueOfBits(hclen - 4, 4);
    var s := EncodeCounts(hlit, hdist, hclen) + rest;
    assert s[..5] == LsbBits(hlit - 257, 5);
    assert s[5..10] == LsbBits(hdist - 1, 5);
    assert s[10..14] == LsbBits(hclen - 4, 4);
  }

  lemma CountsSplit(s: BitString)
    requires |s| >= 14
    ensures LsbValue(s[..5]) < 32 && LsbValue(s[5..10]) < 32 && LsbValue(s[10..14]) < 16
    ensures s == EncodeCounts(LsbValue(s[..5]) + 257, LsbValue(s[5..10]) + 1, LsbValue(s[10..14]) + 4) + s[14..]
  {
    hide LsbBits, LsbValue;
    PowersUpTo13();
    LsbBitsOfValue(s[..5]);
    LsbBitsOfValue(s[5..10]);
    LsbBitsOfValue(s[10..14]);
    LsbValueBound(s[..5]);
    LsbValueBound(s[5..10]);
    LsbValueBound(s[10..14]);
    assert s == s[..5] + s[5..10] + s[10..14] + s[14..];
  }

  lemma HeaderBits(h: Header, rest: BitString)
    requires ValidHeader(h)
    ensures EncodeHeader(h) + rest ==
      EncodeCounts(h.hlit, h.hdist, |h.order|) + (EncodeOrder(h.order) + (EncodeOps(h.ops, ClcLengths(h.order)) + rest))
  {
    hide EncodeOrder, EncodeOps, ClcLengths, LsbBits, Kraft, ApplyOps;
  }

  lemma TablesRoundTrip(h: Header, rest: BitString)
    requires ValidHeader(h)
    ensures var clc := ClcLengths(h.order);
      DecodeTables(EncodeOps(h.ops, clc) + rest, clc, h.hlit, h.hdist)
      == Some(Tables(HeaderLiteral(h), HeaderDistance(h), rest))
  {
    hide EncodeOps, Kraft, ApplyOps, ClcLengths, DecodeLengths;
    LengthsRoundTrip(h.ops, ClcLengths(h.order), [], ApplyOps(h.ops, []).value, rest);
  }

  lemma CodesRoundTrip(h: Header, rest: BitString)
    requires ValidHeader(h)
    ensures DecodeCodes(EncodeOrder(h.order) + (EncodeOps(h.ops, ClcLengths(h.order)) + rest),
                        h.hlit, h.hdist, |h.order|)
         == Some(Tables(HeaderLiteral(h), HeaderDistance(h), rest))
  {
    hide EncodeOrder, EncodeOps, Kraft, ApplyOps, ClcLengths, DecodeOrder, DecodeTables;
    OrderRoundTrip(h.order, EncodeOps(h.ops, ClcLengths(h.order)) + rest);
    TablesRoundTrip(h, rest);
  }

  lemma DecodeAfterCounts(hlit: nat, hdist: nat, hclen: nat, rest: BitString)
    requires 257 <= hlit <= 286 && 1 <= hdist <= 30 && 4 <= hclen <= 19
    ensures DecodeHeader(EncodeCounts(hlit, hdist, hclen) + rest) == DecodeCodes(rest, hlit, hdist, hclen)
  {
    hide EncodeCounts, LsbValue, DecodeCodes, Pow2;
    CountsRoundTrip(hlit, hdist, hclen, rest);
  }

  /** A header's encoding decodes to the header's tables. */
  lemma HeaderRoundTrip(h: Header, rest: BitString)
    requires ValidHeader(h)
    ensures DecodeHeader(EncodeHeader(h) + rest) == Some(Tables(HeaderLiteral(h), HeaderDistance(h), rest))
  {
    HeaderBits(h, rest);
    CodesRoundTrip(h, rest);
    hide EncodeOrder, EncodeOps, Kraft, ApplyOps, EncodeCounts, EncodeHeader, ClcLengths, DecodeCodes, DecodeHeader;
    hide Coded, HeaderLiteral, HeaderDistance;
    DecodeAfterCounts(h.hlit, h.hdist, |h.order|, EncodeOrder(h.order) + (EncodeOps(h.ops, ClcLengths(h.order)) + rest));
  }

  lemma TablesSound(s: BitString, order: seq<nat>, hlit: nat, hdist: nat) returns (h: Header)
    requires 257 <= hlit <= 286 && 1 <= hdist <= 30
    requires 4 <= |order| <= 19 && forall i :: 0 <= i < |order| ==> order[i] < 8
    requires Kraft(ClcLengths(order))
    ensures h.hlit == hlit && h.hdist == hdist && h.order == order
    ensures var clc := ClcLengths(order); var r := DecodeTables(s, clc, hlit, hdist); r.Some? ==>
      && ValidHeader(h)
      && s == EncodeOps(h.ops, clc) + r.value.rest
      && r.value.lit == HeaderLiteral(h) && r.value.dist == HeaderDistance(h)
  {
    hide EncodeOps, Kraft, ApplyOps, ClcLengths, DecodeLengths;
    var ops := LengthsSound(s, ClcLengths(order), hlit + hdist, []);
    h := Header(hlit, hdist, order, ops);
  }

  lemma CodesSound(s: BitString, hlit: nat, hdist: nat, hclen: nat) returns (h: Header)
    requires 257 <= hlit && 1 <= hdist && 4 <= hclen <= 19
    ensures h.hlit == hlit && h.hdist == hdist && |h.order| == hclen
    ensures var r := DecodeCodes(s, hlit, hdist, hclen); r.Some? ==>
      && ValidHeader(h)
      && s == EncodeOrder(h.order) + (EncodeOps(h.ops, ClcLengths(h.order)) + r.value.rest)
      && r.value.lit == HeaderLiteral(h) && r.value.dist == HeaderDistance(h)
  {
    hide EncodeOrder, EncodeOps, Kraft, ApplyOps, ClcLengths, DecodeOrder, DecodeTables, HeaderLiteral, HeaderDistance;
    hide Coded;
    h := Header(hlit, hdist, Fill(hclen, 0), []);
    if DecodeCodes(s, hlit, hdist, hclen).Some? {
      OrderSplit(s, hclen);
      h := TablesSound(s[3 * hclen..], DecodeOrder(s, hclen), hlit, hdist);
    }
  }

  /** Every accepted header is the encoding of a valid one with those tables. */
  lemma HeaderSound(s: BitString) returns (h: Header)
    ensures var r := DecodeHeader(s); r.Some? ==>
      && ValidHeader(h)
      && s == EncodeHeader(h) + r.value.rest
      && r.value.lit == HeaderLiteral(h) && r.value.dist == HeaderDistance(h)
  {
    h := Header(0, 0, [], []);
    var r := DecodeHeader(s);
    if r.Some? {
      CountsSplit(s);
      hide EncodeOrder, EncodeOps, LsbValue, EncodeCounts, EncodeHeader, ClcLengths, DecodeCodes, ValidHeader;
      hide HeaderLiteral, HeaderDistance;
      h := CodesSound(s[14..], LsbValue(s[..5]) + 257, LsbValue(s[5..10]) + 1, LsbValue(s[10..14]) + 4);
      HeaderBits(h, r.value.rest);
    }
  }
}
