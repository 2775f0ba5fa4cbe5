/** Whole DEFLATE streams: the decoder and the grammar agree in both directions. */
module DeflateTheorems {
  import opened Options
  import opened Bits
  import opened CanonicalCode
  import opened HuffmanTables
  import opened Lz77
  import opened DeflateFormat
  import opened DeflateDecoder
  import opened DeflateTokens
  import opened DeflateHeaders

  // ---- the fixed tables -------------------------------------------------------------------

  lemma {:induction false} KraftSumOfFill(ls: Lengths, n: nat, v: nat)
    requires 1 <= v <= MAX_BITS
    ensures KraftSum(ls + Fill(n, v)) == KraftSum(ls) + n * Pow2(MAX_BITS - v)
  {
    if n == 0 {
      assert ls + Fill(0, v) == ls;
    } else {
      var all := ls + Fill(n, v);
      assert all[..|all| - 1] == ls + Fill(n - 1, v);
      KraftSumOfFill(ls, n - 1, v);
    }
  }

  /** The fixed literal code uses the code space exactly; the fixed distance code leaves two
      codes over. */
  lemma FixedTablesAreCodes()
    ensures Kraft(FixedLiteral()) && KraftSum(FixedLiteral()) == Pow2(MAX_BITS)
    ensures Kraft(FixedDistance()) && KraftSum(FixedDistance()) == Pow2(MAX_BITS) - 2 * Pow2(MAX_BITS - 5)
  {
    PowersUpTo13();
    assert Pow2(15) == 4 * Pow2(13);
    KraftSumOfFill([], 144, 8);
    assert [] + Fill(144, 8) == Fill(144, 8);
    KraftSumOfFill(Fill(144, 8), 112, 9);
    KraftSumOfFill(Fill(144, 8) + Fill(112, 9), 24, 7);
    KraftSumOfFill(Fill(144, 8) + Fill(112, 9) + Fill(24, 7), 8, 8);
    KraftInequality(FixedLiteral());
    KraftSumOfFill([], 30, 5);
    assert [] + Fill(30, 5) == Fill(30, 5);
    KraftInequality(FixedDistance());
  }

  // ---- stored blocks ------------------------------------------------------------------------

  lemma {:induction false} WholeBytesOfStream(data: seq<Byte>)
    ensures WholeBytes(StreamBits(data)) == data
  {
    if data != [] {
      PowersUpTo13();
      ValueRoundTrip(data[0], 8, StreamBits(data[1..]));
      WholeBytesOfStream(data[1..]);
    }
  }

  lemma {:induction false} StreamOfWholeBytes(s: BitString)
    requires |s| % 8 == 0
    ensures StreamBits(WholeBytes(s)) == s
    decreases |s|
  {
    if |s| >= 8 {
      ValueSplit(s, 8);
      StreamOfWholeBytes(s[8..]);
      assert WholeBytes(s)[1..] == WholeBytes(s[8..]);
    }
  }

  lemma AlignPad(pad: BitString, s: BitString)
    requires |pad| < 8 && |s| % 8 == 0
    ensures (pad + s)[|pad + s| % 8..] == s
  {
    assert |pad + s| % 8 == |pad|;
  }

  lemma StoredRoundTrip(pad: BitString, bytes: seq<Byte>, out: seq<Byte>, cap: nat, rest: BitString)
    requires |pad| < 8 && |bytes| < 0x1_0000 && |rest| % 8 == 0
    ensures DecodeStored(pad + StreamBits(StoredBytes(bytes)) + rest, out, cap)
         == Expected(Some(out + bytes), cap, rest)
  {
    hide StreamBits, WholeBytes;
    var stored := StoredBytes(bytes);
    var tail := WholeBytes(rest);
    StreamOfWholeBytes(rest);
    StreamBitsConcat(stored, tail);
    var aligned := StreamBits(stored + tail);
    Associate(pad, StreamBits(stored), rest);
    AlignPad(pad, aligned);
    WholeBytesOfStream(stored + tail);
    var data := stored + tail;
    assert data[0] == |bytes| % 256 && data[1] == |bytes| / 256;
    assert data[2] == (0xFFFF - |bytes|) % 256 && data[3] == (0xFFFF - |bytes|) / 256;
    assert data[4..4 + |bytes|] == bytes;
    assert aligned[8 * |stored|..] == rest;
  }

  lemma StoredIs(data: seq<Byte>, blen: nat)
    requires |data| >= 4 + blen && blen == Le16Value(data[0], data[1])
    requires blen + Le16Value(data[2], data[3]) == 0xFFFF
    ensures data[..4 + blen] == StoredBytes(data[4..4 + blen])
  {
  }

  lemma StoredSound(s: BitString, out: seq<Byte>, cap: nat) returns (pad: BitString, bytes: seq<Byte>)
    ensures |pad| == |s| % 8 && |bytes| < 0x1_0000
    ensures var r := DecodeStored(s, out, cap); r.Ok? ==>
      && s == pad + StreamBits(StoredBytes(bytes)) + r.value.rest
      && r.value.out == out + bytes && |r.value.out| <= cap && |r.value.rest| % 8 == 0
  {
    hide StreamBits, WholeBytes;
    pad, bytes := s[..|s| % 8], [];
    var r := DecodeStored(s, out, cap);
    if r.Ok? {
      var aligned := s[|s| % 8..];
      var data := WholeBytes(aligned);
      var blen := Le16Value(data[0], data[1]);
      bytes := data[4..4 + blen];
      var stored := data[..4 + blen];
      StoredIs(data, blen);
      hide StoredBytes, Le16Value;
      StreamOfWholeBytes(aligned);
      StreamBitsConcat(stored, data[4 + blen..]);
      assert stored + data[4 + blen..] == data;
      assert aligned == StreamBits(stored) + aligned[8 * (4 + blen)..];
      assert s == pad + aligned;
      Associate(pad, StreamBits(stored), aligned[8 * (4 + blen)..]);
    }
  }

  // ---- one block ----------------------------------------------------------------------------

  lemma BodyRoundTrip(b: Block, out: seq<Byte>, cap: nat, rest: BitString)
    requires ValidBlock(b) && |out| <= cap
    requires b.StoredBlock? ==> |rest| % 8 == 0
    ensures DecodeBody(BlockBody(b) + rest, BlockType(b), out, cap) == Expected(BlockMeaning(b, out), cap, rest)
  {
    hide DecodeTokens, DecodeHeader, DecodeStored, EncodeTokens, EncodeHeader, StreamBits, Kraft, StoredBytes, Expand;
    match b
    case StoredBlock(pad, bytes) =>
      StoredRoundTrip(pad, bytes, out, cap, rest);
    case FixedBlock(ts) =>
      FixedTablesAreCodes();
      TokensRoundTrip(ts, FixedLiteral(), FixedDistance(), out, cap, rest);
    case DynamicBlock(h, ts) =>
      hide HeaderLiteral, HeaderDistance;
      var tokens := EncodeTokens(ts, HeaderLiteral(h), HeaderDistance(h));
      Associate(EncodeHeader(h), tokens, rest);
      HeaderRoundTrip(h, tokens + rest);
      TokensRoundTrip(ts, HeaderLiteral(h), HeaderDistance(h), out, cap, rest);
  }

  lemma BodySound(s: BitString, kind: nat, out: seq<Byte>, cap: nat) returns (b: Block)
    requires |out| <= cap
    ensures var r := DecodeBody(s, kind, out, cap); r.Ok? ==>
      && ValidBlock(b) && BlockType(b) == kind
      && s == BlockBody(b) + r.value.rest
      && BlockMeaning(b, out) == Some(r.value.out) && |r.value.out| <= cap
      && (b.StoredBlock? ==> |b.pad| == |s| % 8)
  {
    hide DecodeTokens, DecodeHeader, DecodeStored, EncodeTokens, EncodeHeader, StreamBits, Kraft, StoredBytes, Expand;
    hide HeaderLiteral, HeaderDistance, ValidHeader;
    b := FixedBlock([]);
    var r := DecodeBody(s, kind, out, cap);
    if r.Ok? {
      if kind == 0 {
        var pad, bytes := StoredSound(s, out, cap);
        b := StoredBlock(pad, bytes);
      } else if kind == 1 {
        var ts := TokensSound(s, FixedLiteral(), FixedDistance(), out, cap);
        b := FixedBlock(ts);
      } else {
        var h := HeaderSound(s);
        var t := DecodeHeader(s).value;
        var ts := TokensSound(t.rest, t.lit, t.dist, out, cap);
        HeaderIsWellFormed(h);
        b := DynamicBlock(h, ts);
        Associate(EncodeHeader(h), EncodeTokens(ts, t.lit, t.dist), r.value.rest);
      }
    }
  }

  lemma HeaderIsWellFormed(h: Header)
    requires ValidHeader(h)
    ensures forall op :: op in h.ops ==> ValidOp(op)
    ensures ApplyOps(h.ops, []).Some? && |ApplyOps(h.ops, []).value| == h.hlit + h.hdist
  {
  }

  lemma MeaningKeepsPrefix(b: Block, out: seq<Byte>)
    requires ValidBlock(b)
    ensures var r := BlockMeaning(b, out); r.Some? ==> out <= r.value
  {
    hide Expand;
    match b
    case StoredBlock(_, _) =>
    case FixedBlock(ts) => ExpandKeepsPrefix(ts, out);
    case DynamicBlock(_, ts) => ExpandKeepsPrefix(ts, out);
  }

  lemma {:induction false} StreamKeepsPrefix(bs: seq<Block>, out: seq<Byte>)
    requires ValidBlocks(bs)
    ensures var r := StreamMeaning(bs, out); r.Some? ==> out <= r.value
    decreases |bs|
  {
    hide BlockMeaning;
    if bs != [] {
      MeaningKeepsPrefix(bs[0], out);
      if BlockMeaning(bs[0], out).Some? {
        StreamKeepsPrefix(bs[1..], BlockMeaning(bs[0], out).value);
      }
    }
  }

  // ---- all blocks ---------------------------------------------------------------------------

  /** The three bits before a block's body. */
  lemma BlockHeaderRoundTrip(b: Block, final: bool, rest: BitString)
    requires ValidBlock(b)
    ensures var s := EncodeBlock(b, final) + rest;
      |s| >= 3 && s[0] == final && LsbValue(s[1..3]) == BlockType(b) && s[3..] == BlockBody(b) + rest
  {
    hide BlockBody, LsbBits, LsbValue;
    PowersUpTo13();
    LsbValueOfBits(BlockType(b), 2);
    var s := EncodeBlock(b, final) + rest;
    assert s[1..3] == LsbBits(BlockType(b), 2);
  }

  lemma BlockHeaderSplit(s: BitString, b: Block, rest: BitString)
    requires |s| >= 3 && ValidBlock(b) && BlockType(b) == LsbValue(s[1..3]) && s[3..] == BlockBody(b) + rest
    ensures s == EncodeBlock(b, s[0]) + rest
  {
    hide BlockBody, LsbBits, LsbValue;
    LsbBitsOfValue(s[1..3]);
    assert s == [s[0]] + s[1..3] + s[3..];
  }

  lemma {:induction false} BlocksRoundTrip(bs: seq<Block>, at: nat, out: seq<Byte>, cap: nat, left: nat, rest: BitString)
    requires bs != [] && ValidBlocks(bs) && Aligned(bs, at) && |bs| - 1 <= left && |out| <= cap
    requires (at + |EncodeStream(bs)| + |rest|) % 8 == 0
    ensures DecodeBlocks(EncodeStream(bs) + rest, out, cap, left) == Expected(StreamMeaning(bs, out), cap, rest)
    decreases |bs|
  {
    hide BlockBody, EncodeBlock, BlockMeaning, DecodeBody, ValidBlock, LsbValue;
    var b, final := bs[0], |bs| == 1;
    assert b in bs;
    var more := EncodeStream(bs[1..]) + rest;
    Associate(EncodeBlock(b, final), EncodeStream(bs[1..]), rest);
    var s := EncodeBlock(b, final) + more;
    BlockHeaderRoundTrip(b, final, more);
    StoredEndsAligned(b, final, at, |more|);
    BodyRoundTrip(b, out, cap, more);
    var m := BlockMeaning(b, out);
    if m.Some? {
      StreamKeepsPrefix(bs[1..], m.value);
      if |m.value| <= cap {
        if final {
          assert bs[1..] == [];
          assert EncodeStream([]) + rest == rest;
        } else {
          BlocksRoundTrip(bs[1..], at + |EncodeBlock(b, final)|, m.value, cap, left - 1, rest);
        }
      }
    }
  }

  lemma StoredEndsAligned(b: Block, final: bool, at: nat, more: nat)
    requires ValidBlock(b) && (b.StoredBlock? ==> (at + 3 + |b.pad|) % 8 == 0)
    requires (at + |EncodeBlock(b, final)| + more) % 8 == 0
    ensures b.StoredBlock? ==> more % 8 == 0
  {
    if b.StoredBlock? {
      var bits := 8 * |StoredBytes(b.bytes)|;
      hide StreamBits, StoredBytes;
      assert |EncodeBlock(b, final)| == 3 + |b.pad| + bits;
    }
  }

  lemma {:induction false} BlocksSound(s: BitString, at: nat, out: seq<Byte>, cap: nat, left: nat) returns (bs: seq<Block>)
    requires |out| <= cap && (at + |s|) % 8 == 0
    ensures var r := DecodeBlocks(s, out, cap, left); r.Ok? ==>
      && bs != [] && ValidBlocks(bs) && Aligned(bs, at) && |bs| - 1 <= left
      && s == EncodeStream(bs) + r.value.rest
      && StreamMeaning(bs, out) == Some(r.value.out) && |r.value.out| <= cap
    decreases left
  {
    hide BlockBody, EncodeBlock, BlockMeaning, DecodeBody, ValidBlock, LsbValue;
    bs := [];
    var r := DecodeBlocks(s, out, cap, left);
    if r.Ok? {
      var kind := LsbValue(s[1..3]);
      var b := BodySound(s[3..], kind, out, cap);
      var d := DecodeBody(s[3..], kind, out, cap).value;
      BlockHeaderSplit(s, b, d.rest);
      if s[0] {
        bs := [b];
        assert EncodeStream(bs) == EncodeBlock(b, true) + [];
      } else {
        var next := at + |EncodeBlock(b, false)|;
        var more := BlocksSound(d.rest, next, d.out, cap, left - 1);
        bs := [b] + more;
        assert bs[1..] == more;
        Associate(EncodeBlock(b, false), EncodeStream(more), r.value.rest);
      }
      assert bs[0] == b;
      PadIsAligned(at, |s|, b);
    }
  }

  lemma PadIsAligned(at: nat, total: nat, b: Block)
    requires (at + total) % 8 == 0 && total >= 3
    ensures b.StoredBlock? && |b.pad| == (total - 3) % 8 ==> (at + 3 + |b.pad|) % 8 == 0
  {
  }

  // ---- streams ------------------------------------------------------------------------------

  lemma RoundedUp(bytes: nat, used: nat, left: nat)
    requires 8 * bytes == used + left
    ensures bytes - left / 8 == (used + 7) / 8
  {
  }

  /** Every valid stream, followed by anything, inflates to what it means when that fits the
      output, and uses exactly the bytes its bits reach into; when its meaning is undefined
      or too long the answer is TooMany. */
  lemma StreamRoundTrip(bs: seq<Block>, data: seq<Byte>, cap: nat)
    requires ValidStream(bs) && EncodeStream(bs) <= StreamBits(data)
    ensures Inflate(data, cap) ==
      var m := StreamMeaning(bs, []);
      if m.Some? && |m.value| <= cap then Ok(Inflated(m.value, (|EncodeStream(bs)| + 7) / 8)) else Err(TooMany)
  {
    hide StreamMeaning, StreamBits, DecodeBlocks, EncodeStream, Aligned, ValidBlocks;
    var e, all := EncodeStream(bs), StreamBits(data);
    var rest := all[|e|..];
    assert all == e + rest;
    RoundedUp(|data|, |e|, |rest|);
    BlocksRoundTrip(bs, 0, [], cap, MAX_NONFINAL_BLOCKS, rest);
  }

  /** Whatever inflates is a valid stream with that meaning, followed by bits that were not
      looked at. */
  lemma StreamSound(data: seq<Byte>, cap: nat) returns (bs: seq<Block>)
    ensures var r := Inflate(data, cap); r.Ok? ==>
      && ValidStream(bs) && EncodeStream(bs) <= StreamBits(data)
      && StreamMeaning(bs, []) == Some(r.value.out) && |r.value.out| <= cap
      && r.value.consumed == (|EncodeStream(bs)| + 7) / 8 <= |data|
  {
    hide StreamMeaning, StreamBits, DecodeBlocks;
    bs := BlocksSound(StreamBits(data), 0, [], cap, MAX_NONFINAL_BLOCKS);
  }

  /** `data` starts with a way of writing `out` that fits in `cap` bytes. */
  ghost predicate Denotes(bs: seq<Block>, data: seq<Byte>, cap: nat, out: seq<Byte>) {
    && ValidStream(bs) && EncodeStream(bs) <= StreamBits(data)
    && StreamMeaning(bs, []) == Some(out) && |out| <= cap
  }

  /** Acceptance, exactly. */
  lemma InflatesExactly(data: seq<Byte>, cap: nat, out: seq<Byte>)
    ensures (Inflate(data, cap).Ok? && Inflate(data, cap).value.out == out) <==>
      exists bs :: Denotes(bs, data, cap, out)
  {
    hide EncodeStream, StreamMeaning, StreamBits, Inflate;
    if Inflate(data, cap).Ok? && Inflate(data, cap).value.out == out {
      var bs := StreamSound(data, cap);
      assert Denotes(bs, data, cap, out);
    }
    if bs :| Denotes(bs, data, cap, out) {
      StreamRoundTrip(bs, data, cap);
    }
  }

  /** No byte string can be read as two streams that mean different things. */
  lemma StreamsAreUnambiguous(a: seq<Block>, b: seq<Block>, data: seq<Byte>)
    requires ValidStream(a) && EncodeStream(a) <= StreamBits(data)
    requires ValidStream(b) && EncodeStream(b) <= StreamBits(data)
    ensures StreamMeaning(a, []) == StreamMeaning(b, [])
  {
    hide EncodeStream, StreamMeaning, StreamBits, Inflate;
    var m := if StreamMeaning(a, []).Some? then StreamMeaning(a, []) else StreamMeaning(b, []);
    if m.Some? {
      StreamRoundTrip(a, data, |m.value|);
      StreamRoundTrip(b, data, |m.value|);
    }
  }
}
