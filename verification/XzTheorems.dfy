/** Well-formed .xz files read as what they hold; and whatever is accepted has an index that
    lists its blocks. */
module XzTheorems {
  import opened Options
  import opened Sequences
  import opened Bits
  import opened Words
  import opened Vli
  import opened Checksums
  import opened XzModel

  // ---- the writer's side ------------------------------------------------------------------------

  /** An uncompressed chunk, with or without a dictionary reset before it. */
  datatype Chunk = Chunk(reset: bool, data: seq<Byte>)

  predicate ChunkGood(c: Chunk) {
    1 <= |c.data| <= 0x1_0000
  }

  predicate ChunksGood(cs: seq<Chunk>) {
    (forall c :: c in cs ==> ChunkGood(c)) && (cs != [] ==> cs[0].reset)
  }

  function ChunkBytes(c: Chunk): (s: seq<Byte>)
    requires ChunkGood(c)
  {
    [if c.reset then 1 else 2, (|c.data| - 1) / 256, (|c.data| - 1) % 256] + c.data
  }

  function ChunkStream(cs: seq<Chunk>): (s: seq<Byte>)
    requires forall c :: c in cs ==> ChunkGood(c)
    ensures s != []
  {
    if cs == [] then [0] else ChunkBytes(cs[0]) + ChunkStream(cs[1..])
  }

  function Payload(cs: seq<Chunk>): seq<Byte> {
    if cs == [] then [] else cs[0].data + Payload(cs[1..])
  }

  lemma ChunkRead(c: Chunk, more: seq<Byte>, dict: bool, out: seq<Byte>, cap: nat)
    requires ChunkGood(c) && (dict || c.reset) && |out| + |c.data| <= cap
    ensures Chunks(ChunkBytes(c) + more, dict, out, cap) == Longer(|ChunkBytes(c)|, Chunks(more, true, out + c.data, cap))
  {
    var n := |c.data|;
    var d := ChunkBytes(c) + more;
    assert 256 * ((n - 1) / 256) + (n - 1) % 256 + 1 == n;
    assert d[0] == (if c.reset then 1 else 2) && d[1] == (n - 1) / 256 && d[2] == (n - 1) % 256;
    assert d[3..3 + n] == c.data && d[3 + n..] == more;
  }

  lemma NoChunks(dict: bool, out: seq<Byte>, cap: nat, rest: seq<Byte>)
    ensures Chunks(ChunkStream([]) + rest, dict, out, cap) == Ok(Chunked(out + Payload([]), 1))
  {
    assert out + [] == out;
  }

  lemma {:induction false} ChunksRead(cs: seq<Chunk>, dict: bool, out: seq<Byte>, cap: nat, rest: seq<Byte>)
    requires (forall c :: c in cs ==> ChunkGood(c)) && (cs != [] && !dict ==> cs[0].reset)
    requires |out| + |Payload(cs)| <= cap
    ensures Chunks(ChunkStream(cs) + rest, dict, out, cap) == Ok(Chunked(out + Payload(cs), |ChunkStream(cs)|))
    decreases |cs|
  {
    hide ChunkBytes, Chunks;
    if cs == [] {
      NoChunks(dict, out, cap, rest);
    } else {
      var c := cs[0];
      var more := ChunkStream(cs[1..]) + rest;
      assert ChunkStream(cs) + rest == ChunkBytes(c) + more;
      ChunkRead(c, more, dict, out, cap);
      ChunksRead(cs[1..], true, out + c.data, cap, rest);
      assert out + c.data + Payload(cs[1..]) == out + Payload(cs);
    }
  }

  /** A block: chunks, the sizes it declares, the LZMA2 property byte, and header padding. */
  datatype Spec = Spec(chunks: seq<Chunk>, packed: bool, plain: bool, props: Byte, pad: nat)

  function HeaderFields(b: Spec): seq<Byte>
    requires forall c :: c in b.chunks ==> ChunkGood(c)
  {
    [(if b.packed then 64 else 0) + (if b.plain then 128 else 0)] +
    (if b.packed then EncodeVli(|ChunkStream(b.chunks)|) else []) +
    (if b.plain then EncodeVli(|Payload(b.chunks)|) else []) +
    [0x21, 1, b.props]
  }

  /** The header without its check. */
  function HeaderBody(b: Spec): seq<Byte>
    requires SpecGood(b)
  {
    [(|HeaderFields(b)| + b.pad + 5) / 4 - 1] + HeaderFields(b) + Zeros(b.pad)
  }

  predicate SpecGood(b: Spec) {
    && ChunksGood(b.chunks) && b.props <= 40
    && |ChunkStream(b.chunks)| < Pow2(63) && |Payload(b.chunks)| < Pow2(63)
    && (|HeaderFields(b)| + b.pad + 5) % 4 == 0 && |HeaderFields(b)| + b.pad + 5 <= 1024
  }

  function HeaderBytes(b: Spec): seq<Byte>
    requires SpecGood(b)
  {
    HeaderBody(b) + LeBytes(Crc32(HeaderBody(b), 0), 4)
  }

  // ---- numbers and headers ------------------------------------------------------------------------

  /** Parts of a part. */
  lemma AtInside(h: seq<Byte>, p: nat, whole: seq<Byte>, q: nat, part: seq<Byte>)
    requires At(h, p, whole) && At(whole, q, part)
    ensures At(h, p + q, part)
  {
    var w := h[p..p + |whole|];
    assert w == whole;
    forall i | 0 <= i < |part| ensures h[p + q + i] == part[i] {
      assert w[q + i] == whole[q..q + |part|][i];
    }
  }

  lemma VliRead(h: seq<Byte>, p: nat, v: nat)
    requires v < Pow2(63) && At(h, p, EncodeVli(v))
    ensures VliAt(h, p) == Some(Vli(v, |EncodeVli(v)|))
  {
    var e := EncodeVli(v);
    assert h[p..][..|e|] == e;
    hide EncodeVli, Pow2;
    VliIsExact(h[p..], v, |e|);
  }

  lemma SmallVlis()
    ensures EncodeVli(0x21) == [0x21] && EncodeVli(1) == [1] && 0x1000 < Pow2(63)
  {
    assert Pow2(4) == 16;
    assert Pow2(8) == 0x100;
    assert Pow2(12) == 0x1000;
    Pow2Monotone(13, 63);
  }

  /** Parts one after another. */
  lemma Pieces(a: seq<Byte>, b: seq<Byte>, c: seq<Byte>)
    ensures At(a + b + c, |a|, b)
  {
  }

  lemma SizesOf(b: Spec, h: seq<Byte>)
    requires SpecGood(b) && h == HeaderBytes(b)
    ensures |h| == |HeaderFields(b)| + b.pad + 5 && 8 <= |h| <= 1024 && |h| % 4 == 0 && h[0] == |h| / 4 - 1
    ensures At(h, 1, HeaderFields(b)) && At(h, 0, HeaderBody(b)) && At(h, |h| - 4, LeBytes(Crc32(HeaderBody(b), 0), 4))
    ensures At(h, 1 + |HeaderFields(b)|, Zeros(b.pad)) && |HeaderBody(b)| == |h| - 4
  {
    FieldsLong(b);
    var f, z, crc := HeaderFields(b), Zeros(b.pad), LeBytes(Crc32(HeaderBody(b), 0), 4);
    var body := HeaderBody(b);
    hide HeaderFields, Crc32, LeBytes, Zeros;
    var size: seq<Byte> := [(|f| + b.pad + 5) / 4 - 1];
    assert body == size + f + z && h == body + crc;
    assert body[0] == size[0];
    hide HeaderBody, HeaderBytes, SpecGood, At;
    BodyParts(size, f, z, crc, h);
  }

  lemma BodyParts(size: seq<Byte>, f: seq<Byte>, z: seq<Byte>, crc: seq<Byte>, h: seq<Byte>)
    requires |size| == 1 && h == size + f + z + crc
    ensures At(h, 0, size + f + z) && At(h, |size + f + z|, crc) && At(h, 1, f) && At(h, 1 + |f|, z)
  {
    assert h == size + f + (z + crc);
    Pieces(size, f, z + crc);
    Pieces(size + f, z, crc);
    Pieces([], size + f + z, crc);
    assert [] + (size + f + z) + crc == h;
    Pieces(size + f + z, crc, []);
    assert size + f + z + crc + [] == h;
  }

  lemma FieldsLong(b: Spec)
    requires forall c :: c in b.chunks ==> ChunkGood(c)
    ensures |HeaderFields(b)| >= 4
  {
    hide EncodeVli, ChunkStream;
  }

  function PackedOf(b: Spec): nat
    requires forall c :: c in b.chunks ==> ChunkGood(c)
  {
    if b.packed then |ChunkStream(b.chunks)| else 0
  }

  function PlainOf(b: Spec): nat {
    if b.plain then |Payload(b.chunks)| else 0
  }

  function Optional(v: nat, present: bool): seq<Byte> {
    if present then EncodeVli(v) else []
  }

  /** The fields of a header are found where the reader looks for them. */
  lemma FieldsAt(b: Spec, h: seq<Byte>)
    requires SpecGood(b) && At(h, 1, HeaderFields(b))
    ensures |h| >= 5 && h[1] == (if b.packed then 64 else 0) + (if b.plain then 128 else 0)
    ensures var packed, plain := Optional(|ChunkStream(b.chunks)|, b.packed), Optional(|Payload(b.chunks)|, b.plain);
      && At(h, 2, packed) && At(h, 2 + |packed|, plain) && At(h, 2 + |packed| + |plain|, [0x21, 1, b.props])
      && 1 + |HeaderFields(b)| == 5 + |packed| + |plain|
  {
    hide *;
    GoodChunks(b);
    FieldsAre(b);
    var flags: seq<Byte> := [(if b.packed then 64 else 0) + (if b.plain then 128 else 0)];
    var packed, plain := Optional(|ChunkStream(b.chunks)|, b.packed), Optional(|Payload(b.chunks)|, b.plain);
    var tail: seq<Byte> := [0x21, 1, b.props];
    var f := HeaderFields(b);
    FourParts(flags, packed, plain, tail);
    AtInside(h, 1, f, 0, flags);
    AtInside(h, 1, f, 1, packed);
    AtInside(h, 1, f, 1 + |packed|, plain);
    AtInside(h, 1, f, 1 + |packed| + |plain|, tail);
    OneByte(h, 1, flags);
    Long(h, 2 + |packed| + |plain|, tail);
  }

  lemma FieldsAre(b: Spec)
    requires forall c :: c in b.chunks ==> ChunkGood(c)
    ensures HeaderFields(b) == [(if b.packed then 64 else 0) + (if b.plain then 128 else 0)] +
      Optional(|ChunkStream(b.chunks)|, b.packed) + Optional(|Payload(b.chunks)|, b.plain) + [0x21, 1, b.props]
  {
    hide ChunkStream, Payload, EncodeVli;
  }

  lemma FourParts(a: seq<Byte>, b: seq<Byte>, c: seq<Byte>, d: seq<Byte>)
    ensures var f := a + b + c + d;
      At(f, 0, a) && At(f, |a|, b) && At(f, |a| + |b|, c) && At(f, |a| + |b| + |c|, d)
  {
  }

  lemma OneByte(h: seq<Byte>, p: nat, part: seq<Byte>)
    requires At(h, p, part) && |part| == 1
    ensures p < |h| && h[p] == part[0]
  {
    assert h[p..p + 1][0] == h[p];
  }

  lemma Long(h: seq<Byte>, p: nat, part: seq<Byte>)
    requires At(h, p, part)
    ensures p + |part| <= |h|
  {
  }

  lemma FilterRead(h: seq<Byte>, p: nat, props: Byte)
    requires At(h, p, [0x21, 1, props])
    ensures ReadFilters(h, p, 1, None) == Some(Filters(Filter(0x21, 1, p + 2), p + 3)) && h[p + 2] == props
  {
    var t: seq<Byte> := [0x21, 1, props];
    SmallVlis();
    assert h[p..p + 3] == t;
    assert h[p] == t[0] && h[p + 1] == t[1] && h[p + 2] == t[2];
    assert h[p..p + 1] == [0x21] && h[p + 1..p + 2] == [1];
    hide EncodeVli, Pow2, VliAt;
    VliRead(h, p, 0x21);
    VliRead(h, p + 1, 1);
    var first := Some(Filter(0x21, 1, p + 2));
    assert ReadFilters(h, p + 3, 0, first) == Some(Filters(first.value, p + 3));
  }

  lemma OptionalRead(h: seq<Byte>, p: nat, v: nat, present: bool)
    requires v < Pow2(63) && At(h, p, Optional(v, present))
    ensures OptionalVli(h, p, present) == Some(Vli(if present then v else 0, |Optional(v, present)|))
  {
    hide Pow2;
    if present {
      hide EncodeVli;
      VliRead(h, p, v);
    }
  }

  lemma CrcRead(data: seq<Byte>)
    ensures LeValue(LeBytes(Crc32(data, 0), 4)) == Crc32(data, 0)
  {
    Crc32Chains(data, [], 0);
    WordSizes();
    hide LeValue, LeBytes, Crc32;
    LeValueOfBytes(Crc32(data, 0), 4);
  }

  lemma HeaderRead(b: Spec)
    requires SpecGood(b)
    ensures |HeaderBytes(b)| >= 8 && BlockHeader(HeaderBytes(b)) == Ok(Sizes(PackedOf(b), PlainOf(b)))
  {
    hide HeaderFields, HeaderBody, HeaderBytes, Crc32, LeBytes, LeValue, ReadFilters, OptionalVli, Optional, Zeros, ChunkStream, Payload, EncodeVli, Pow2;
    var h := HeaderBytes(b);
    SizesOf(b, h);
    FieldsAt(b, h);
    CrcRead(HeaderBody(b));
    var packed, plain := Optional(|ChunkStream(b.chunks)|, b.packed), Optional(|Payload(b.chunks)|, b.plain);
    OptionalRead(h, 2, |ChunkStream(b.chunks)|, b.packed);
    OptionalRead(h, 2 + |packed|, |Payload(b.chunks)|, b.plain);
    FilterRead(h, 2 + |packed| + |plain|, b.props);
    var body, end := |h| - 4, 5 + |packed| + |plain|;
    assert h[..body] == h[0..body] == HeaderBody(b);
    assert h[body..] == h[body..body + 4];
    assert h[end..body] == Zeros(b.pad);
  }

  // ---- blocks -------------------------------------------------------------------------------------

  function BlockBytes(b: Spec, check: nat): seq<Byte>
    requires SpecGood(b)
  {
    var end := |HeaderBytes(b)| + |ChunkStream(b.chunks)|;
    HeaderBytes(b) + ChunkStream(b.chunks) + Zeros(Fill(end)) + LeBytes(CheckOf(check, Payload(b.chunks)), check)
  }

  function RecordOf(b: Spec, check: nat): Record
    requires SpecGood(b)
  {
    Record(|HeaderBytes(b)| + |ChunkStream(b.chunks)| + check, |Payload(b.chunks)|)
  }

  lemma CheckRead(check: nat, data: seq<Byte>)
    requires check == 0 || check == 4 || check == 8
    ensures LeValue(LeBytes(CheckOf(check, data), check)) == CheckOf(check, data)
  {
    hide LeValue, LeBytes, Crc32, Crc64, Pow2;
    Crc32Chains(data, [], 0);
    Crc64Chains(data, [], 0);
    WordSizes();
    if check == 4 {
      LeValueOfBytes(Crc32(data, 0), 4);
    } else if check == 8 {
      LeValueOfBytes(Crc64(data, 0), 8);
    } else {
      NoBytes();
    }
  }

  lemma NoBytes()
    ensures LeValue(LeBytes(0, 0)) == 0
  {
  }

  lemma TailRead(h: seq<Byte>, s: seq<Byte>, p: seq<Byte>, sizes: Sizes, check: nat, out: seq<Byte>, rest: seq<Byte>)
    requires 8 <= |h| && (check == 0 || check == 4 || check == 8)
    requires (sizes.packed == 0 || sizes.packed == |s|) && (sizes.plain == 0 || sizes.plain == |p|)
    ensures var z, k := Zeros(Fill(|h| + |s|)), LeBytes(CheckOf(check, p), check);
      BlockTail(h + s + z + k + rest, |h|, sizes, check, out, Chunked(out + p, |s|))
        == Ok(Block(out + p, Record(|h| + |s| + check, |p|), |h| + |s| + |z| + check))
  {
    hide LeBytes, LeValue, CheckOf, Fill;
    var z, k := Zeros(Fill(|h| + |s|)), LeBytes(CheckOf(check, p), check);
    var d := h + s + z + k + rest;
    BlockParts(h, s, z, k, rest, d);
    assert (out + p)[|out|..] == p;
    CheckRead(check, p);
  }

  lemma BodyIs(d: seq<Byte>, size: nat, sizes: Sizes, check: nat, out: seq<Byte>, cap: nat, s: seq<Byte>, p: seq<Byte>, tail: seq<Byte>)
    requires 8 <= size <= |d| && d[size..] == s + tail && (sizes.packed == 0 || sizes.packed == |s|)
    requires Chunks(s + tail, false, out, cap) == Ok(Chunked(out + p, |s|)) == Chunks(s, false, out, cap)
    ensures size + |s| <= |d|
    ensures BlockBody(d, size, sizes, check, out, cap) == BlockTail(d, size, sizes, check, out, Chunked(out + p, |s|))
  {
    hide Chunks, BlockTail;
    assert d[size..size + (|d| - size)] == s + tail;
    assert d[size..size + |s|] == (s + tail)[..|s|] == s;
  }

  lemma BodyRead(b: Spec, check: nat, out: seq<Byte>, cap: nat, rest: seq<Byte>)
    requires SpecGood(b) && (check == 0 || check == 4 || check == 8) && |out| + |Payload(b.chunks)| <= cap
    ensures var d, size := BlockBytes(b, check) + rest, |HeaderBytes(b)|;
      && 8 <= size <= |d|
      && BlockBody(d, size, Sizes(PackedOf(b), PlainOf(b)), check, out, cap)
           == Ok(Block(out + Payload(b.chunks), RecordOf(b, check), |BlockBytes(b, check)|))
  {
    hide *;
    GoodChunks(b);
    var h, s, p := HeaderBytes(b), ChunkStream(b.chunks), Payload(b.chunks);
    SizesOf(b, h);
    BlockBytesAre(b, check);
    var sizes := Sizes(PackedOf(b), PlainOf(b));
    var z, k := Zeros(Fill(|h| + |s|)), LeBytes(CheckOf(check, p), check);
    var d := BlockBytes(b, check) + rest;
    BlockParts(h, s, z, k, rest, d);
    TailRead(h, s, p, sizes, check, out, rest);
    AllChunks(b.chunks, out, cap, z + k + rest);
    BodyIs(d, |h|, sizes, check, out, cap, s, p, z + k + rest);
  }

  lemma BlockBytesAre(b: Spec, check: nat)
    requires SpecGood(b)
    ensures var h, s, p := HeaderBytes(b), ChunkStream(b.chunks), Payload(b.chunks);
      && BlockBytes(b, check) == h + s + Zeros(Fill(|h| + |s|)) + LeBytes(CheckOf(check, p), check)
      && RecordOf(b, check) == Record(|h| + |s| + check, |p|)
      && (PackedOf(b) == 0 || PackedOf(b) == |s|) && (PlainOf(b) == 0 || PlainOf(b) == |p|)
  {
    hide HeaderBytes, ChunkStream, Payload, Zeros, LeBytes, CheckOf, SpecGood;
  }

  lemma AllChunks(cs: seq<Chunk>, out: seq<Byte>, cap: nat, tail: seq<Byte>)
    requires ChunksGood(cs) && |out| + |Payload(cs)| <= cap
    ensures var s := ChunkStream(cs);
      Chunks(s + tail, false, out, cap) == Ok(Chunked(out + Payload(cs), |s|)) == Chunks(s, false, out, cap)
  {
    hide Chunks, ChunkStream, Payload;
    ChunksRead(cs, false, out, cap, tail);
    ChunksRead(cs, false, out, cap, []);
    assert ChunkStream(cs) + [] == ChunkStream(cs);
  }

  lemma BlockParts(h: seq<Byte>, s: seq<Byte>, z: seq<Byte>, k: seq<Byte>, rest: seq<Byte>, d: seq<Byte>)
    requires d == h + s + z + k + rest
    ensures d[|h|..] == d[|h|..|h| + (|d| - |h|)] == s + (z + k + rest) && d[|h|..|h| + |s|] == s
    ensures d[|h| + |s|..|h| + |s| + |z|] == z && d[|h| + |s| + |z|..|h| + |s| + |z| + |k|] == k
  {
    assert d == h + (s + (z + k + rest));
  }

  lemma GoodChunks(b: Spec)
    requires SpecGood(b)
    ensures ChunksGood(b.chunks) && forall c :: c in b.chunks ==> ChunkGood(c)
  {
  }

  lemma BlockRead(b: Spec, check: nat, out: seq<Byte>, cap: nat, rest: seq<Byte>)
    requires SpecGood(b) && (check == 0 || check == 4 || check == 8) && |out| + |Payload(b.chunks)| <= cap
    ensures var d := BlockBytes(b, check) + rest;
      && d != [] && d[0] != 0
      && ReadBlock(d, check, out, cap) == Ok(Block(out + Payload(b.chunks), RecordOf(b, check), |BlockBytes(b, check)|))
  {
    hide HeaderBytes, BlockBody, BlockHeader, LeBytes, CheckOf, Zeros, ChunkStream, Payload, RecordOf, SpecGood, Fill;
    var d, h := BlockBytes(b, check) + rest, HeaderBytes(b);
    SizesOf(b, h);
    HeaderRead(b);
    BodyRead(b, check, out, cap, rest);
    assert d[..|h|] == h;
    assert d[0] == h[0];
  }

  // ---- all blocks -----------------------------------------------------------------------------------

  predicate AllGood(bs: seq<Spec>) {
    forall b :: b in bs ==> SpecGood(b)
  }

  function BlocksBytes(bs: seq<Spec>, check: nat): seq<Byte>
    requires AllGood(bs)
  {
    if bs == [] then [] else BlockBytes(bs[0], check) + BlocksBytes(bs[1..], check)
  }

  function Records(bs: seq<Spec>, check: nat): (r: seq<Record>)
    requires AllGood(bs)
    ensures |r| == |bs|
  {
    if bs == [] then [] else [RecordOf(bs[0], check)] + Records(bs[1..], check)
  }

  function WholePayload(bs: seq<Spec>): seq<Byte> {
    if bs == [] then [] else Payload(bs[0].chunks) + WholePayload(bs[1..])
  }

  lemma {:induction false} BlocksRead(bs: seq<Spec>, check: nat, out: seq<Byte>, records: seq<Record>, cap: nat, rest: seq<Byte>)
    requires AllGood(bs) && (check == 0 || check == 4 || check == 8) && |out| + |WholePayload(bs)| <= cap
    requires |records| + |bs| <= MAX_BLOCKS && rest != [] && rest[0] == 0
    ensures ReadBlocks(BlocksBytes(bs, check) + rest, check, out, records, cap)
      == Ok(Blocks(out + WholePayload(bs), records + Records(bs, check), rest))
    decreases |bs|
  {
    hide ReadBlock, BlockBytes, RecordOf, Payload, SpecGood, HeaderBytes, ChunkStream;
    if bs == [] {
      assert BlocksBytes(bs, check) + rest == rest && out + [] == out && records + [] == records;
    } else {
      var b := bs[0];
      var here, there := BlockBytes(b, check), BlocksBytes(bs[1..], check);
      var p, q := Payload(b.chunks), WholePayload(bs[1..]);
      var d := BlocksBytes(bs, check) + rest;
      Associates(here, there, rest);
      BlockRead(b, check, out, cap, there + rest);
      assert d[|here|..] == there + rest;
      BlocksRead(bs[1..], check, out + p, records + [RecordOf(b, check)], cap, rest);
      Associates(out, p, q);
      Associates(records, [RecordOf(b, check)], Records(bs[1..], check));
    }
  }
}
