/** The DEFLATE decoder as it is written: a reader and an output window updated in place. */
module Inflater {
  import opened Options
  import opened Bits
  import opened BitReaders
  import opened CanonicalCode
  import opened HuffmanTables
  import opened Lz77
  import opened Sinks
  import opened DeflateFormat
  import opened DeflateDecoder
  import opened DeflateTheorems

  datatype Outcome = Done | Failed(status: Status)

  ghost predicate Apart(out: Sink, table: Huffman) {
    out.base as object != table.counts && out.base as object != table.symbols
  }

  /** The distance code and extra bits after a length code; `bad` covers both a code that is
      not valid and a stream that ends here. */
  method ReadReference(br: BitReader, dist: Huffman, ghost dl: Lengths, lc: nat)
    returns (bad: bool, length: nat, distance: nat)
    requires br.Valid() && !br.overrun && lc < LEN_CODES && dist.Represents(dl)
    modifies br
    ensures br.Valid()
    ensures bad <==> DecodeMatch(old(br.Rest()), dl, lc).None?
    ensures !bad ==>
      var (t, rest) := DecodeMatch(old(br.Rest()), dl, lc).value;
      && !br.overrun && br.Rest() == rest && length == MatchLength(t) && distance == MatchDistance(t)
  {
    hide BitReader.Valid, BitReader.Rest, Lookup, LsbValue, LenBase, DistBase, Kraft, Count, Position;
    bad, length, distance := true, 0, 0;
    ExtraBitsBound();
    var le := br.ReadBits(LenExtra(lc));
    length := LenBase(lc) + le;
    var dc := dist.Decode(br, dl);
    if dc < 0 || dc > 29 {
      return;
    }
    var de := br.ReadBits(DistExtra(dc));
    distance := DistBase(dc) + de;
    if br.overrun {
      return;
    }
    bad := false;
  }

  lemma ExtraBitsBound()
    ensures forall c :: 0 <= c < LEN_CODES ==> LenExtra(c) <= 16
    ensures forall c :: 0 <= c < DIST_CODES ==> DistExtra(c) <= 16
  {
  }

  method InflateBlock(br: BitReader, out: Sink, lit: Huffman, dist: Huffman, ghost ll: Lengths, ghost dl: Lengths)
    returns (r: Outcome)
    requires br.Valid() && !br.overrun && out.Valid() && !out.full
    requires lit.Represents(ll) && dist.Represents(dl) && Apart(out, lit) && Apart(out, dist)
    modifies br, out, out.base
    ensures br.Valid() && out.Valid() && out.Appends()
    ensures match DecodeTokens(old(br.Rest()), ll, dl, old(out.Output()), out.size)
      case Ok(d) => r == Done && !br.overrun && !out.full && br.Rest() == d.rest && out.Output() == d.out
      case Err(status) => r == Failed(status)
  {
    hide BitReader.Valid, BitReader.Rest, Lookup, Kraft, Count, Position, DecodeTokens, DecodeMatch, MatchLength,
         MatchDistance;
    ghost var answer := DecodeTokens(br.Rest(), ll, dl, out.Output(), out.size);
    while true
      invariant br.Valid() && !br.overrun && out.Valid() && !out.full && out.Appends()
      invariant lit.Represents(ll) && dist.Represents(dl)
      invariant answer == DecodeTokens(br.Rest(), ll, dl, out.Output(), out.size)
      decreases |br.Rest()|
    {
      ghost var s, o := br.Rest(), out.Output();
      DecodeStep(s, ll, dl, o, out.size);
      var symbol := lit.Decode(br, ll);
      if symbol < 0 {
        return Failed(Corrupt);
      }
      if symbol < 256 {
        out.PutByte(symbol);
        if out.full {
          return Failed(TooMany);
        }
        continue;
      }
      if symbol == 256 {
        return Done;
      }
      var lengthCode := symbol - 257;
      if lengthCode > 28 {
        return Failed(Corrupt);
      }
      ghost var s1 := br.Rest();
      var bad, length, distance := ReadReference(br, dist, dl, lengthCode);
      if bad {
        return Failed(Corrupt);
      }
      TokenRanges(DecodeMatch(s1, dl, lengthCode).value.0);
      out.Copy(distance, length);
      if out.full {
        return Failed(TooMany);
      }
    }
  }

  /** One symbol's worth of the decoder function, case by case. */
  lemma DecodeStep(s: BitString, ll: Lengths, dl: Lengths, out: seq<Byte>, cap: nat)
    ensures var r := DecodeTokens(s, ll, dl, out, cap); var m := Lookup(ll, s);
      && (m.None? ==> r == Err(Corrupt))
      && (m.Some? ==>
            var sym := m.value; var s1 := s[ll[sym]..];
            && |s1| < |s|
            && (sym < 256 ==> r == if |out| >= cap then Err(TooMany) else DecodeTokens(s1, ll, dl, out + [sym], cap))
            && (sym == 256 ==> r == Ok(Decoded(out, s1)))
            && (sym > 285 ==> r == Err(Corrupt))
            && (256 < sym <= 285 ==>
                  match DecodeMatch(s1, dl, sym - 257)
                  case None => r == Err(Corrupt)
                  case Some((t, s2)) =>
                    r == if MatchDistance(t) > |out| || |out| + MatchLength(t) > cap then Err(TooMany)
                         else DecodeTokens(s2, ll, dl, CopyBack(out, MatchDistance(t), MatchLength(t)), cap)))
  {
  }

  // ---- stored blocks ------------------------------------------------------------------------

  method RegionOk(len: nat, at: nat, n: nat) returns (ok: bool)
    ensures ok <==> at + n <= len
  {
    ok := at <= len && len - at >= n;
  }

  method ReadLe16(data: seq<Byte>, at: nat) returns (v: nat)
    requires at + 2 <= |data|
    ensures v == Le16Value(data[at], data[at + 1]) && v < 0x1_0000
  {
    assert Pow2(8) == 256;
    BitOrDisjoint(data[at], data[at + 1], 8);
    ShlEight(data[at + 1]);
    v := BitOr(data[at], Shl(data[at + 1], 8));
  }

  lemma ShlEight(v: nat)
    ensures Shl(v, 8) == 256 * v
  {
    assert Shl(v, 2) == 2 * Shl(v, 1) == 4 * v;
    assert Shl(v, 4) == 2 * Shl(v, 3) == 4 * Shl(v, 2);
    assert Shl(v, 6) == 2 * Shl(v, 5) == 4 * Shl(v, 4);
    assert Shl(v, 8) == 2 * Shl(v, 7) == 4 * Shl(v, 6);
  }

  lemma ComplementTest(a: nat, b: nat)
    requires a < 0x1_0000 && b < 0x1_0000
    ensures BitXor(a, b) == 0xFFFF <==> a + b == 0xFFFF
  {
    PowersUpTo13();
    assert Pow2(16) == 8 * Pow2(13);
    XorIsComplement(a, b, 16);
  }

  /** LEN and NLEN, read as plain bytes. */
  method ReadStoredHeader(br: BitReader) returns (bad: bool, blen: nat)
    requires br.Valid() && !br.overrun && br.count == 0
    modifies br
    ensures br.Valid() && !br.overrun && br.count == 0
    ensures var bytes := br.data[old(br.byte)..];
      && (bad <==> |bytes| < 4 || Le16Value(bytes[0], bytes[1]) + Le16Value(bytes[2], bytes[3]) != 0xFFFF
                   || |bytes| - 4 < Le16Value(bytes[0], bytes[1]))
      && (!bad ==> blen == Le16Value(bytes[0], bytes[1]) && br.byte == old(br.byte) + 4
                   && br.byte + blen <= |br.data| && br.Rest() == old(br.Rest())[32..])
  {
    hide BitReader.Valid, BitReader.Rest, StreamBits, BitXor, Le16Value;
    bad, blen := true, 0;
    var ok := RegionOk(|br.data|, br.byte, 4);
    if !ok {
      return;
    }
    blen := ReadLe16(br.data, br.byte);
    var nlen := ReadLe16(br.data, br.byte + 2);
    br.SkipBytes(4);
    ComplementTest(blen, nlen);
    if BitXor(blen, nlen) != 0xFFFF {
      return;
    }
    ok := RegionOk(|br.data|, br.byte, blen);
    bad := !ok;
  }

  method InflateStored(br: BitReader, out: Sink) returns (r: Outcome)
    requires br.Valid() && !br.overrun && out.Valid() && !out.full
    modifies br, out, out.base
    ensures br.Valid() && out.Valid() && out.Appends()
    ensures match DecodeStored(old(br.Rest()), old(out.Output()), out.size)
      case Ok(d) => r == Done && !br.overrun && !out.full && br.Rest() == d.rest && out.Output() == d.out
      case Err(status) => r == Failed(status)
  {
    hide BitReader.Valid, BitReader.Rest, StreamBits, WholeBytes, Le16Value;
    br.AlignUnread();
    ghost var aligned := br.Rest();
    ghost var bytes := br.data[br.byte..];
    WholeBytesOfStream(bytes);
    var bad, blen := ReadStoredHeader(br);
    if bad {
      return Failed(Corrupt);
    }
    if out.used + blen > out.size {
      return Failed(TooMany);
    }
    assert br.data[br.byte..][..blen] == bytes[4..4 + blen];
    CopyStored(br.data, br.byte, blen, out);
    br.SkipBytes(blen);
    DropDrop(aligned, 32, 8 * blen);
    return Done;
  }

  method CopyStored(data: seq<Byte>, at: nat, blen: nat, out: Sink)
    requires out.Valid() && !out.full && at + blen <= |data| && out.used + blen <= out.size
    modifies out, out.base
    ensures out.Valid() && !out.full && out.Appends()
    ensures out.Output() == old(out.Output()) + data[at..][..blen]
  {
    for i := 0 to blen
      invariant out.Valid() && !out.full && out.Appends() && out.used == old(out.used) + i
      invariant out.Output() == old(out.Output()) + data[at..][..i]
    {
      out.PutByte(data[at + i]);
      assert data[at..][..i + 1] == data[at..][..i] + [data[at + i]];
    }
  }

  // ---- the tables -----------------------------------------------------------------------------

  method BuildFixedLiteral() returns (table: Huffman)
    ensures table.Represents(FixedLiteral()) && fresh(table.counts) && fresh(table.symbols)
  {
    var lengths := new nat[288];
    for i := 0 to 144
      invariant forall k :: 0 <= k < i ==> lengths[k] == 8
    { lengths[i] := 8; }
    for i := 144 to 256
      invariant forall k :: 0 <= k < i ==> lengths[k] == if k < 144 then 8 else 9
    { lengths[i] := 9; }
    for i := 256 to 280
      invariant forall k :: 0 <= k < i ==> lengths[k] == if k < 144 then 8 else if k < 256 then 9 else 7
    { lengths[i] := 7; }
    for i := 280 to 288
      invariant forall k :: 0 <= k < i ==>
        lengths[k] == if k < 144 then 8 else if k < 256 then 9 else if k < 280 then 7 else 8
    { lengths[i] := 8; }
    assert lengths[..] == FixedLiteral();
    FixedTablesAreCodes();
    table := new Huffman();
    var _ := table.Build(lengths[..]);
  }

  method BuildFixedDistance() returns (table: Huffman)
    ensures table.Represents(FixedDistance()) && fresh(table.counts) && fresh(table.symbols)
  {
    var lengths := new nat[30];
    for i := 0 to 30
      invariant forall k :: 0 <= k < i ==> lengths[k] == 5
    { lengths[i] := 5; }
    assert lengths[..] == FixedDistance();
    FixedTablesAreCodes();
    table := new Huffman();
    var _ := table.Build(lengths[..]);
  }

  // ---- a dynamic block's tables -----------------------------------------------------------------

  lemma {:induction false} DecodeOrderStep(s: BitString, n: nat)
    requires 3 * (n + 1) <= |s|
    ensures DecodeOrder(s, n + 1) == DecodeOrder(s, n) + [LsbValue(s[3 * n..][..3])]
  {
    if n > 0 {
      DecodeOrderStep(s[3..], n - 1);
      DropDrop(s, 3, 3 * (n - 1));
    } else {
      assert s[0..] == s;
    }
  }

  /** The code-length code's own lengths, in the scrambled order. */
  method ReadOrder(br: BitReader, hclen: nat) returns (clc: array<nat>)
    requires br.Valid() && !br.overrun && hclen <= 19
    modifies br
    ensures br.Valid() && fresh(clc) && clc.Length == 19
    ensures forall k :: 0 <= k < 19 ==> clc[k] < 8
    ensures br.overrun <==> |old(br.Rest())| < 3 * hclen
    ensures !br.overrun ==>
      && clc[..] == ClcLengths(DecodeOrder(old(br.Rest()), hclen))
      && br.Rest() == old(br.Rest())[3 * hclen..]
  {
    hide BitReader.Valid, BitReader.Rest, LsbValue, DecodeOrder, ClcLengths, Pow2;
    ghost var s := br.Rest();
    clc := new nat[19];
    for i := 0 to 19
      invariant forall k :: 0 <= k < i ==> clc[k] == 0
      invariant br.Valid() && br.Rest() == s && !br.overrun
    {
      clc[i] := 0;
    }
    assert s[0..] == s;
    DecodeNoOrder(s);
    assert clc[..] == Fill(19, 0);
    PowersUpTo13();
    for i := 0 to hclen
      invariant br.Valid()
      invariant forall k :: 0 <= k < 19 ==> clc[k] < 8
      invariant br.overrun <==> |s| < 3 * i
      invariant br.overrun ==> |br.Rest()| < 3
      invariant !br.overrun ==> br.Rest() == s[3 * i..] && clc[..] == ClcLengths(DecodeOrder(s, i))
    {
      if |s| >= 3 * (i + 1) {
        LsbValueBound(s[3 * i..][..3]);
        DecodeOrderStep(s, i);
        ClcStep(DecodeOrder(s, i), LsbValue(s[3 * i..][..3]));
        DropDrop(s, 3 * i, 3);
      }
      var v := br.ReadBits(3);
      clc[CLC_ORDER[i]] := v;
    }
  }

  lemma DecodeNoOrder(s: BitString)
    ensures DecodeOrder(s, 0) == [] && ClcLengths([]) == Fill(19, 0)
  {
  }

  lemma ClcStep(order: seq<nat>, v: nat)
    requires |order| < 19 && v < 8 && forall i :: 0 <= i < |order| ==> order[i] < 8
    ensures ClcLengths(order + [v]) == ClcLengths(order)[CLC_ORDER[|order|] := v]
  {
    assert (order + [v])[..|order|] == order;
  }

  /** The coded lengths of both tables. */
  method ReadLengths(br: BitReader, clc: Huffman, ghost cl: Lengths, total: nat, lengths: array<nat>)
    returns (bad: bool)
    requires br.Valid() && clc.Represents(cl) && |cl| == 19 && 0 < total <= lengths.Length
    requires lengths != clc.counts && lengths != clc.symbols
    modifies br, lengths
    ensures br.Valid()
    ensures old(br.overrun) ==> bad
    ensures !old(br.overrun) ==>
      var r := DecodeLengths(old(br.Rest()), cl, total, []);
      && (bad || br.overrun <==> r.None?)
      && (r.Some? ==> lengths[..total] == r.value.0 && br.Rest() == r.value.1)
    ensures !bad ==> forall k :: 0 <= k < total ==> lengths[k] <= MAX_BITS
  {
    hide BitReader.Valid, BitReader.Rest, Lookup, LsbValue, Kraft, Count, Position, DecodeLengths, Pow2;
    ghost var answer := DecodeLengths(br.Rest(), cl, total, []);
    bad := true;
    var i := 0;
    PowersUpTo13();
    while i < total
      invariant br.Valid() && 0 <= i <= total && clc.Represents(cl)
      invariant forall k :: 0 <= k < i ==> lengths[k] <= MAX_BITS
      invariant old(br.overrun) ==> br.overrun && i == 0
      invariant !old(br.overrun) && br.overrun ==> answer.None?
      invariant !br.overrun ==> answer == DecodeLengths(br.Rest(), cl, total, lengths[..i])
      decreases total - i
    {
      ghost var s, acc := br.Rest(), lengths[..i];
      LengthsStep(s, cl, total, acc);
      var symbol := clc.Decode(br, cl);
      if symbol < 0 {
        return;
      }
      if symbol < 16 {
        lengths[i] := symbol;
        i := i + 1;
        assert lengths[..i] == acc + [symbol];
        continue;
      }
      var repeat := 0;
      var value := 0;
      ghost var s1 := br.Rest();
      if symbol == 16 {
        if i == 0 {
          return;
        }
        value := lengths[i - 1];
        var extra := br.ReadBits(2);
        repeat := 3 + extra;
      } else if symbol == 17 {
        var extra := br.ReadBits(3);
        repeat := 3 + extra;
      } else {
        var extra := br.ReadBits(7);
        repeat := 11 + extra;
      }
      if i + repeat > total {
        return;
      }
      i := RepeatLength(lengths, i, repeat, value);
      assert lengths[..i] == acc + Fill(repeat, value);
    }
    LengthsDone(br.Rest(), cl, total, lengths[..i]);
    bad := false;
  }

  method RepeatLength(lengths: array<nat>, at: nat, repeat: nat, value: nat) returns (i: nat)
    requires at + repeat <= lengths.Length
    modifies lengths
    ensures i == at + repeat
    ensures lengths[..i] == old(lengths[..at]) + Fill(repeat, value)
  {
    var left := repeat;
    i := at;
    while left > 0
      invariant i + left == at + repeat
      invariant lengths[..at] == old(lengths[..at])
      invariant forall k :: at <= k < i ==> lengths[k] == value
    {
      lengths[i] := value;
      i := i + 1;
      left := left - 1;
    }
  }

  lemma LengthsDone(s: BitString, cl: Lengths, total: nat, acc: Lengths)
    requires |cl| == 19 && |acc| == total
    ensures DecodeLengths(s, cl, total, acc) == Some((acc, s))
  {
  }

  lemma LengthsStep(s: BitString, cl: Lengths, total: nat, acc: Lengths)
    requires |cl| == 19 && |acc| < total
    ensures DecodeLengths(s, cl, total, acc) ==
      match DecodeOp(s, cl)
      case None => None
      case Some((op, s1)) =>
        match ApplyOp(op, acc)
        case None => None
        case Some(next) => if |next| > total then None else DecodeLengths(s1, cl, total, next)
  {
  }

  method ReadDynamicTables(br: BitReader, lit: Huffman, dist: Huffman)
    returns (bad: bool, ghost ll: Lengths, ghost dl: Lengths)
    requires br.Valid() && !br.overrun && lit.Shaped() && dist.Shaped() && Distinct(lit, dist)
    modifies br, lit.counts, lit.symbols, dist.counts, dist.symbols
    ensures br.Valid()
    ensures bad <==> DecodeHeader(old(br.Rest())).None?
    ensures !bad ==>
      && DecodeHeader(old(br.Rest())) == Some(Tables(ll, dl, br.Rest()))
      && !br.overrun && lit.Represents(ll) && dist.Represents(dl)
  {
    hide BitReader.Valid, BitReader.Rest, LsbValue, Kraft, Pow2, DecodeLengths, DecodeOrder, ClcLengths, KraftSum;
    bad, ll, dl := true, [], [];
    ghost var s := br.Rest();
    var hlit, hdist, hclen := ReadCounts(br);
    if br.overrun || hlit > 286 || hdist > 30 {
      return;
    }
    ghost var s14 := br.Rest();
    var clcLengths := ReadOrder(br, hclen);
    var clc := new Huffman();
    var built := clc.Build(clcLengths[..]);
    if built < 0 {
      return;
    }
    ghost var cl := clcLengths[..];
    ghost var dead, s2 := br.overrun, br.Rest();
    var total := hlit + hdist;
    var lengths := new nat[288 + 30];
    bad := ReadLengths(br, clc, cl, total, lengths);
    if bad {
      return;
    }
    bad := br.overrun;
    if bad {
      return;
    }
    assert lengths[..total][..hlit] == lengths[..hlit];
    assert lengths[..total][hlit..] == lengths[hlit..total];
    assert DecodeLengths(s2, cl, total, []) == Some((lengths[..total], br.Rest()));
    bad := true;
    built := lit.Build(lengths[..hlit]);
    if built < 0 {
      return;
    }
    built := dist.Build(lengths[hlit..total]);
    if built < 0 {
      return;
    }
    bad, ll, dl := false, lengths[..hlit], lengths[hlit..total];
  }

  ghost predicate Distinct(a: Huffman, b: Huffman) {
    && a.counts != b.counts && a.counts != b.symbols && a.symbols != b.counts && a.symbols != b.symbols
  }

  method ReadCounts(br: BitReader) returns (hlit: nat, hdist: nat, hclen: nat)
    requires br.Valid() && !br.overrun
    modifies br
    ensures br.Valid()
    ensures br.overrun <==> |old(br.Rest())| < 14
    ensures !br.overrun ==>
      var s := old(br.Rest());
      && hlit == LsbValue(s[..5]) + 257 && hdist == LsbValue(s[5..10]) + 1 && hclen == LsbValue(s[10..14]) + 4
      && hclen <= 19 && br.Rest() == s[14..]
  {
    hide BitReader.Valid, BitReader.Rest, LsbValue;
    ghost var s := br.Rest();
    PowersUpTo13();
    if |s| >= 14 {
      LsbValueBound(s[10..14]);
      assert s[5..][..5] == s[5..10] && s[5..][5..] == s[10..];
      assert s[10..][..4] == s[10..14] && s[10..][4..] == s[14..];
    }
    hlit := br.ReadBits(5);
    hlit := hlit + 257;
    hdist := br.ReadBits(5);
    hdist := hdist + 1;
    hclen := br.ReadBits(4);
    hclen := hclen + 4;
  }

  // ---- the entry point ----------------------------------------------------------------------------

  /** Inflates `data` into `base[origin..origin + size]`. */
  method AfpkgInflate(data: seq<Byte>, base: array<Byte>, origin: nat, size: nat)
    returns (r: Outcome, outLen: nat, consumed: nat)
    requires origin + size <= base.Length
    modifies base
    ensures match Inflate(data, size)
      case Ok(i) => r == Done && outLen == |i.out| <= size && consumed == i.consumed
                    && base[origin..origin + outLen] == i.out
      case Err(status) => r == Failed(status) && outLen == 0 && consumed == 0
    ensures forall i :: 0 <= i < base.Length && (i < origin || origin + size <= i) ==> base[i] == old(base[i])
  {
    hide BitReader.Valid, BitReader.Rest, StreamBits, DecodeBlocks, BitReader.BitPosition, Sink.Appends, Sink.Output;
    outLen, consumed := 0, 0;
    var br := new BitReader(data);
    var out := new Sink(base, origin, size);
    r := InflateBlocks(br, out);
    if r.Failed? {
      return;
    }
    outLen := out.used;
    out.OutputIsWindow();
    consumed := Consumed(br);
  }

  /** Block after block up to the final one. */
  method InflateBlocks(br: BitReader, out: Sink) returns (r: Outcome)
    requires br.Valid() && !br.overrun && out.Valid() && !out.full
    modifies br, out, out.base
    ensures br.Valid() && out.Valid() && out.Appends()
    ensures forall i :: 0 <= i < out.base.Length && (i < out.origin || out.origin + out.size <= i) ==>
      out.base[i] == old(out.base[i])
    ensures match DecodeBlocks(old(br.Rest()), old(out.Output()), out.size, MAX_NONFINAL_BLOCKS)
      case Ok(d) => r == Done && br.Rest() == d.rest && out.Output() == d.out
      case Err(status) => r == Failed(status)
  {
    hide BitReader.Valid, BitReader.Rest, LsbValue, DecodeBlocks, DecodeBody;
    var blocks := 0;
    ghost var answer := DecodeBlocks(br.Rest(), out.Output(), out.size, MAX_NONFINAL_BLOCKS);
    while true
      invariant br.Valid() && !br.overrun && out.Valid() && !out.full && out.Appends()
      invariant 0 <= blocks <= MAX_NONFINAL_BLOCKS
      invariant answer == DecodeBlocks(br.Rest(), out.Output(), out.size, MAX_NONFINAL_BLOCKS - blocks)
      decreases MAX_NONFINAL_BLOCKS - blocks
    {
      BlocksStep(br.Rest(), out.Output(), out.size, MAX_NONFINAL_BLOCKS - blocks);
      var final;
      r, final := NextBlock(br, out);
      if r.Failed? || final {
        return;
      }
      blocks := blocks + 1;
      if blocks > MAX_NONFINAL_BLOCKS {
        return Failed(Corrupt);
      }
      if br.byte >= |br.data| && br.count == 0 {
        NothingLeft(br);
        BlocksStep([], out.Output(), out.size, MAX_NONFINAL_BLOCKS - blocks);
        return Failed(Corrupt);
      }
    }
  }

  lemma BlocksStep(s: BitString, out: seq<Byte>, cap: nat, left: nat)
    ensures DecodeBlocks(s, out, cap, left) ==
      if |s| < 3 then Err(Corrupt)
      else match DecodeBody(s[3..], LsbValue(s[1..3]), out, cap)
        case Err(status) => Err(status)
        case Ok(d) =>
          if s[0] then Ok(d)
          else if left == 0 then Err(Corrupt)
          else DecodeBlocks(d.rest, d.out, cap, left - 1)
  {
  }

  lemma NothingLeft(br: BitReader)
    requires br.Valid() && br.byte >= |br.data| && br.count == 0
    ensures br.Rest() == []
  {
    assert br.data[br.byte..] == [];
  }

  function Min(a: nat, b: nat): nat {
    if a <= b then a else b
  }

  /** Bits used, rounded up to whole bytes. */
  method Consumed(br: BitReader) returns (n: nat)
    requires br.Valid()
    ensures n == |br.data| - |br.Rest()| / 8
  {
    var bitsUsed := br.byte * 8 - br.count;
    var bytesUsed := (bitsUsed + 7) / 8;
    RoundedUp(|br.data|, bitsUsed, |br.Rest()|);
    n := Min(bytesUsed, |br.data|);
  }

  /** The block header and the block it announces. */
  method NextBlock(br: BitReader, out: Sink) returns (r: Outcome, final: bool)
    requires br.Valid() && !br.overrun && out.Valid() && !out.full
    modifies br, out, out.base
    ensures br.Valid() && out.Valid() && out.Appends()
    ensures var s := old(br.Rest());
      if |s| < 3 then r == Failed(Corrupt)
      else final == s[0] && match DecodeBody(s[3..], LsbValue(s[1..3]), old(out.Output()), out.size)
        case Ok(d) => r == Done && !br.overrun && !out.full && br.Rest() == d.rest && out.Output() == d.out
        case Err(status) => r == Failed(status)
  {
    hide BitReader.Valid, BitReader.Rest, DecodeBody, LsbValue;
    ghost var s := br.Rest();
    var bit := br.ReadBit();
    var kind := br.ReadBits(2);
    final := bit == 1;
    if br.overrun {
      return Failed(Corrupt), final;
    }
    assert s[1..][..2] == s[1..3] && s[1..][2..] == s[3..];
    r := InflateBody(br, out, kind);
  }

  /** The switch over block types. */
  method InflateBody(br: BitReader, out: Sink, kind: nat) returns (r: Outcome)
    requires br.Valid() && !br.overrun && out.Valid() && !out.full
    modifies br, out, out.base
    ensures br.Valid() && out.Valid() && out.Appends()
    ensures match DecodeBody(old(br.Rest()), kind, old(out.Output()), out.size)
      case Ok(d) => r == Done && !br.overrun && !out.full && br.Rest() == d.rest && out.Output() == d.out
      case Err(status) => r == Failed(status)
  {
    hide BitReader.Valid, BitReader.Rest, DecodeTokens, DecodeStored, DecodeHeader;
    if kind == 0 {
      r := InflateStored(br, out);
    } else if kind == 1 {
      var lit := BuildFixedLiteral();
      var dist := BuildFixedDistance();
      r := InflateBlock(br, out, lit, dist, FixedLiteral(), FixedDistance());
    } else if kind == 2 {
      var lit := new Huffman();
      var dist := new Huffman();
      var bad, ll, dl := ReadDynamicTables(br, lit, dist);
      if bad {
        return Failed(Corrupt);
      }
      r := InflateBlock(br, out, lit, dist, ll, dl);
    } else {
      r := Failed(Corrupt);
    }
  }
}
