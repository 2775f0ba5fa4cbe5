/** What the .xz reader accepts, exactly. It accepts the format, and beyond it a file in which a
    declared size is zero, a block header's fields run into its check, or the footer's size field
    is off by a multiple of 2^30. */
module XzExact {
  import opened Options
  import opened Sequences
  import opened Bits
  import opened Words
  import opened Vli
  import opened Checksums
  import opened XzModel
  import opened XzTheorems
  import opened XzStream

  // ---- chunks -------------------------------------------------------------------------------------

  /** An accepted chunk stream is a stream of chunks, with exactly their data. */
  lemma {:induction false} ChunksWritten(d: seq<Byte>, dict: bool, out: seq<Byte>, cap: nat) returns (cs: seq<Chunk>)
    requires Chunks(d, dict, out, cap).Ok? && |out| <= cap
    ensures (forall c :: c in cs ==> ChunkGood(c)) && (cs != [] && !dict ==> cs[0].reset)
    ensures var r := Chunks(d, dict, out, cap).value;
      ChunkStream(cs) == d[..r.used] && r.out == out + Payload(cs) && |out| + |Payload(cs)| <= cap
    decreases |d|
  {
    hide *;
    ChunkWas(d, dict, out, cap);
    if d[0] == 0 {
      cs := [];
      LastChunk(out);
      assert d[..1] == [0];
    } else {
      var size := 256 * d[1] as int + d[2] + 1;
      var c := Chunk(d[0] == 1, d[3..3 + size]);
      var more := ChunksWritten(d[3 + size..], true, out + c.data, cap);
      cs := [c] + more;
      ChunkIs(d, size);
      MoreChunks(c, more, cs, out);
      var used := |ChunkStream(more)|;
      assert d[..3 + size + used] == d[..3 + size] + d[3 + size..][..used];
    }
  }

  lemma LastChunk(out: seq<Byte>)
    ensures ChunkStream([]) == [0] && Payload([]) == [] && out + Payload([]) == out
  {
  }

  lemma MoreChunks(c: Chunk, more: seq<Chunk>, cs: seq<Chunk>, out: seq<Byte>)
    requires cs == [c] + more && ChunkGood(c) && forall x :: x in more ==> ChunkGood(x)
    ensures forall x :: x in cs ==> ChunkGood(x)
    ensures ChunkStream(cs) == ChunkBytes(c) + ChunkStream(more)
    ensures Payload(cs) == c.data + Payload(more) && out + c.data + Payload(more) == out + Payload(cs)
  {
    assert cs[1..] == more;
    hide ChunkBytes, ChunkGood;
    assert out + c.data + Payload(more) == out + (c.data + Payload(more));
  }

  lemma ChunkWas(d: seq<Byte>, dict: bool, out: seq<Byte>, cap: nat)
    requires Chunks(d, dict, out, cap).Ok?
    ensures d != [] && (d[0] == 0 ==> Chunks(d, dict, out, cap).value == Chunked(out, 1))
    ensures d[0] != 0 ==> |d| >= 3 && 1 <= d[0] <= 2 && (dict || d[0] == 1)
    ensures d[0] != 0 ==>
      var size := 256 * d[1] as int + d[2] + 1;
      && |d| >= 3 + size && |out| + size <= cap && Chunks(d[3 + size..], true, out + d[3..3 + size], cap).Ok?
      && var rest := Chunks(d[3 + size..], true, out + d[3..3 + size], cap).value;
         Chunks(d, dict, out, cap).value == Chunked(rest.out, rest.used + 3 + size)
  {
  }

  lemma ChunkIs(d: seq<Byte>, size: nat)
    requires |d| >= 3 + size && 1 <= d[0] <= 2 && size == 256 * d[1] as int + d[2] + 1
    ensures ChunkGood(Chunk(d[0] == 1, d[3..3 + size])) && ChunkBytes(Chunk(d[0] == 1, d[3..3 + size])) == d[..3 + size]
  {
    assert (size - 1) / 256 == d[1] && (size - 1) % 256 == d[2];
    assert d[..3 + size] == d[..3] + d[3..3 + size];
    assert d[..3] == [d[0], d[1], d[2]];
  }

  // ---- block headers --------------------------------------------------------------------------------

  /** A block as it may be laid out: its chunks, the sizes its header declares, if any, the LZMA2
      property byte, and the header itself. */
  datatype Laid = Laid(chunks: seq<Chunk>, packed: Option<nat>, plain: Option<nat>, props: Byte, header: seq<Byte>)

  function Declared(v: Option<nat>): nat {
    if v.Some? then v.value else 0
  }

  function FlagsOf(packed: Option<nat>, plain: Option<nat>): Byte {
    (if packed.Some? then 64 else 0) + (if plain.Some? then 128 else 0)
  }

  function Fields(packed: Option<nat>, plain: Option<nat>, props: Byte): seq<Byte> {
    [FlagsOf(packed, plain)] + Optional(Declared(packed), packed.Some?) +
    Optional(Declared(plain), plain.Some?) + [0x21, 1, props]
  }

  /** Size byte, fields, zeros if there is room, and the check of everything before it, which the
      fields may run into. */
  predicate IsHeader(h: seq<Byte>, packed: Option<nat>, plain: Option<nat>, props: Byte) {
    var end := 1 + |Fields(packed, plain, props)|;
    && |h| >= 8 && At(h, 1, Fields(packed, plain, props)) && props <= 40
    && Declared(packed) < Pow2(63) && Declared(plain) < Pow2(63)
    && (end < |h| - 4 ==> AllZero(h[end..|h| - 4]))
    && Crc32(h[..|h| - 4], 0) == LeValue(h[|h| - 4..])
  }

  lemma FieldsSplit(h: seq<Byte>, packed: Option<nat>, plain: Option<nat>, props: Byte)
    ensures var flags: seq<Byte> := [FlagsOf(packed, plain)];
      var a, b := Optional(Declared(packed), packed.Some?), Optional(Declared(plain), plain.Some?);
      && (At(h, 1, Fields(packed, plain, props)) <==>
            At(h, 1, flags) && At(h, 2, a) && At(h, 2 + |a|, b) && At(h, 2 + |a| + |b|, [0x21, 1, props]))
      && |Fields(packed, plain, props)| == 4 + |a| + |b|
  {
    hide Optional, FlagsOf, At;
    var flags: seq<Byte> := [FlagsOf(packed, plain)];
    FourAt(h, 1, flags, Optional(Declared(packed), packed.Some?), Optional(Declared(plain), plain.Some?), [0x21, 1, props]);
  }

  lemma FourAt(h: seq<Byte>, p: nat, a: seq<Byte>, b: seq<Byte>, c: seq<Byte>, d: seq<Byte>)
    ensures At(h, p, a + b + c + d) <==>
      At(h, p, a) && At(h, p + |a|, b) && At(h, p + |a| + |b|, c) && At(h, p + |a| + |b| + |c|, d)
  {
    TwoAt(h, p, a, b);
    TwoAt(h, p, a + b, c);
    TwoAt(h, p, a + b + c, d);
  }

  lemma TwoAt(h: seq<Byte>, p: nat, a: seq<Byte>, b: seq<Byte>)
    ensures At(h, p, a + b) <==> At(h, p, a) && At(h, p + |a|, b)
  {
    if At(h, p, a + b) {
      assert h[p..p + |a|] == (a + b)[..|a|] == a;
      assert h[p + |a|..p + |a| + |b|] == (a + b)[|a|..] == b;
    }
    if At(h, p, a) && At(h, p + |a|, b) {
      assert h[p..p + |a + b|] == h[p..p + |a|] + h[p + |a|..p + |a| + |b|];
    }
  }

  /** Every header is accepted for the sizes it declares. */
  lemma LaidHeaderRead(h: seq<Byte>, packed: Option<nat>, plain: Option<nat>, props: Byte)
    requires IsHeader(h, packed, plain, props)
    ensures BlockHeader(h) == Ok(Sizes(Declared(packed), Declared(plain)))
  {
    hide Fields, Optional, Crc32, LeValue, ReadFilters, OptionalVli, EncodeVli, Pow2;
    FieldsSplit(h, packed, plain, props);
    var a, b := Optional(Declared(packed), packed.Some?), Optional(Declared(plain), plain.Some?);
    OneByte(h, 1, [FlagsOf(packed, plain)]);
    OptionalRead(h, 2, Declared(packed), packed.Some?);
    OptionalRead(h, 2 + |a|, Declared(plain), plain.Some?);
    FilterRead(h, 2 + |a| + |b|, props);
    Long(h, 2 + |a| + |b|, [0x21, 1, props]);
  }

  /** Nothing else is. */
  lemma LaidHeaderWritten(h: seq<Byte>) returns (packed: Option<nat>, plain: Option<nat>, props: Byte)
    requires |h| >= 8 && BlockHeader(h).Ok?
    ensures IsHeader(h, packed, plain, props) && BlockHeader(h).value == Sizes(Declared(packed), Declared(plain))
  {
    hide *;
    var x, y, fs := HeaderWas(h);
    var one, two := h[1] / 64 % 2 == 1, h[1] / 128 == 1;
    OptionalWritten(h, 2, one);
    packed := if one then Some(x.value) else None;
    OptionalWritten(h, 2 + x.length, two);
    plain := if two then Some(y.value) else None;
    var q := 2 + x.length + y.length;
    FilterWritten(h, q);
    props := h[q + 2];
    DeclaredIs(x.value);
    DeclaredIs(y.value);
    OneAt(h, 1);
    FlagsAre(h[1], packed, plain);
    FieldsSplit(h, packed, plain, props);
    HeaderIs(h, packed, plain, props);
  }

  lemma DeclaredIs(v: nat)
    ensures Declared(Some(v)) == v && Declared(None) == 0
  {
  }

  lemma OneAt(h: seq<Byte>, p: nat)
    requires p < |h|
    ensures At(h, p, [h[p]])
  {
  }

  lemma FlagsAre(flags: Byte, packed: Option<nat>, plain: Option<nat>)
    requires flags / 4 % 16 == 0 && flags % 4 == 0
    requires packed.Some? == (flags / 64 % 2 == 1) && plain.Some? == (flags / 128 == 1)
    ensures FlagsOf(packed, plain) == flags
  {
    assert flags == flags / 64 * 64 && flags / 64 == 2 * (flags / 128) + flags / 64 % 2;
  }

  lemma HeaderIs(h: seq<Byte>, packed: Option<nat>, plain: Option<nat>, props: Byte)
    requires |h| >= 8 && At(h, 1, Fields(packed, plain, props)) && props <= 40
    requires Declared(packed) < Pow2(63) && Declared(plain) < Pow2(63)
    requires var end := 1 + |Fields(packed, plain, props)|; end < |h| - 4 ==> AllZero(h[end..|h| - 4])
    requires Crc32(h[..|h| - 4], 0) == LeValue(h[|h| - 4..])
    ensures IsHeader(h, packed, plain, props)
  {
    hide Fields, Crc32, LeValue, Pow2, AllZero, At, Declared;
  }

  /** The conditions behind an accepted header. */
  lemma HeaderWas(h: seq<Byte>) returns (x: Vli, y: Vli, fs: Filters)
    requires |h| >= 8 && BlockHeader(h).Ok?
    ensures Crc32(h[..|h| - 4], 0) == LeValue(h[|h| - 4..]) && h[1] / 4 % 16 == 0 && h[1] % 4 == 0
    ensures OptionalVli(h, 2, h[1] / 64 % 2 == 1) == Some(x)
    ensures OptionalVli(h, 2 + x.length, h[1] / 128 == 1) == Some(y)
    ensures ReadFilters(h, 2 + x.length + y.length, 1, None) == Some(fs)
    ensures BlockHeader(h) == Ok(Sizes(x.value, y.value))
    ensures fs.first.id == 0x21 && fs.first.size == 1 && fs.first.props < |h| && h[fs.first.props] <= 40
    ensures fs.end < |h| - 4 ==> AllZero(h[fs.end..|h| - 4])
  {
    hide OptionalVli, ReadFilters, Crc32, LeValue, AllZero;
    x := OptionalVli(h, 2, h[1] / 64 % 2 == 1).value;
    y := OptionalVli(h, 2 + x.length, h[1] / 128 == 1).value;
    fs := ReadFilters(h, 2 + x.length + y.length, 1, None).value;
  }

  lemma OptionalWritten(h: seq<Byte>, p: nat, present: bool)
    requires OptionalVli(h, p, present).Some? && p <= |h|
    ensures var v := OptionalVli(h, p, present).value;
      && v.value < Pow2(63) && At(h, p, Optional(v.value, present)) && v.length == |Optional(v.value, present)|
      && (!present ==> v.value == 0) && p + v.length <= |h|
  {
    hide VliAt, EncodeVli;
    SmallVlis();
    if present {
      VliWritten(h, p);
    } else {
      assert h[p..p] == [];
    }
  }

  lemma FilterWritten(h: seq<Byte>, p: nat)
    requires ReadFilters(h, p, 1, None).Some?
    ensures var fs := ReadFilters(h, p, 1, None).value;
      fs.first.id == 0x21 && fs.first.size == 1 ==>
        fs.first.props == p + 2 && fs.end == p + 3 <= |h| && At(h, p, [0x21, 1, h[p + 2]])
  {
    hide VliAt, EncodeVli, Pow2;
    SmallVlis();
    VliWritten(h, p);
    var id := VliAt(h, p).value;
    VliWritten(h, p + id.length);
    var size := VliAt(h, p + id.length).value;
    if id.value == 0x21 && size.value == 1 {
      assert h[p..p + 1] == [0x21] && h[p + 1..p + 2] == [1];
      assert h[p..p + 3] == h[p..p + 1] + h[p + 1..p + 2] + [h[p + 2]];
    }
  }

  // ---- blocks ---------------------------------------------------------------------------------------

  /** Chunks in order, a header of the length it states, declared sizes that are right or zero. */
  ghost predicate LaidGood(b: Laid) {
    && ChunksGood(b.chunks) && IsHeader(b.header, b.packed, b.plain, b.props)
    && |b.header| == 4 * (b.header[0] as int + 1)
    && (Declared(b.packed) == 0 || Declared(b.packed) == |ChunkStream(b.chunks)|)
    && (Declared(b.plain) == 0 || Declared(b.plain) == |Payload(b.chunks)|)
  }

  ghost function LaidBytes(b: Laid, check: nat): seq<Byte>
    requires LaidGood(b)
  {
    var end := |b.header| + |ChunkStream(b.chunks)|;
    b.header + ChunkStream(b.chunks) + Zeros(Fill(end)) + LeBytes(CheckOf(check, Payload(b.chunks)), check)
  }

  ghost function LaidRecord(b: Laid, check: nat): Record
    requires LaidGood(b)
  {
    Record(|b.header| + |ChunkStream(b.chunks)| + check, |Payload(b.chunks)|)
  }

  lemma LaidParts(b: Laid, check: nat)
    requires LaidGood(b)
    ensures var h, t, p := b.header, ChunkStream(b.chunks), Payload(b.chunks);
      && LaidBytes(b, check) == h + t + Zeros(Fill(|h| + |t|)) + LeBytes(CheckOf(check, p), check)
      && LaidRecord(b, check) == Record(|h| + |t| + check, |p|)
      && 8 <= |h| == 4 * (h[0] as int + 1) && ChunksGood(b.chunks) && IsHeader(h, b.packed, b.plain, b.props)
      && (Declared(b.packed) == 0 || Declared(b.packed) == |t|) && (Declared(b.plain) == 0 || Declared(b.plain) == |p|)
  {
    hide ChunksGood, ChunkStream, Payload, Zeros, Fill, LeBytes, CheckOf, Declared, Crc32, LeValue, Fields, Pow2, At, AllZero;
  }

  lemma BlockIs(d: seq<Byte>, h: seq<Byte>, sizes: Sizes, check: nat, out: seq<Byte>, cap: nat, r: Block)
    requires h <= d && 8 <= |h| == 4 * (h[0] as int + 1) && BlockHeader(h) == Ok(sizes)
    requires BlockBody(d, |h|, sizes, check, out, cap) == Ok(r)
    ensures d != [] && d[0] != 0 && ReadBlock(d, check, out, cap) == Ok(r)
  {
    hide BlockHeader, BlockBody;
    assert d[..|h|] == h;
    assert d[0] == h[0];
  }

  lemma LaidRead(b: Laid, check: nat, out: seq<Byte>, cap: nat, rest: seq<Byte>)
    requires LaidGood(b) && (check == 0 || check == 4 || check == 8) && |out| + |Payload(b.chunks)| <= cap
    ensures var d := LaidBytes(b, check) + rest;
      && d != [] && d[0] != 0
      && ReadBlock(d, check, out, cap) == Ok(Block(out + Payload(b.chunks), LaidRecord(b, check), |LaidBytes(b, check)|))
  {
    hide *;
    LaidParts(b, check);
    AreChunks(b.chunks);
    var h, t, p := b.header, ChunkStream(b.chunks), Payload(b.chunks);
    LaidHeaderRead(h, b.packed, b.plain, b.props);
    var sizes := Sizes(Declared(b.packed), Declared(b.plain));
    var z, k := Zeros(Fill(|h| + |t|)), LeBytes(CheckOf(check, p), check);
    var d := LaidBytes(b, check) + rest;
    BlockParts(h, t, z, k, rest, d);
    TailRead(h, t, p, sizes, check, out, rest);
    AllChunks(b.chunks, out, cap, z + k + rest);
    XzTheorems.BodyIs(d, |h|, sizes, check, out, cap, t, p, z + k + rest);
    assert h <= d;
    BlockIs(d, h, sizes, check, out, cap, Block(out + p, LaidRecord(b, check), |LaidBytes(b, check)|));
  }

  lemma LaidWritten(d: seq<Byte>, check: nat, out: seq<Byte>, cap: nat) returns (b: Laid)
    requires d != [] && d[0] != 0 && ReadBlock(d, check, out, cap).Ok? && |out| <= cap
    ensures LaidGood(b) && LaidBytes(b, check) <= d && |out| + |Payload(b.chunks)| <= cap
    ensures ReadBlock(d, check, out, cap).value == Block(out + Payload(b.chunks), LaidRecord(b, check), |LaidBytes(b, check)|)
  {
    hide *;
    var size := 4 * (d[0] as int + 1);
    BlockWas(d, check, out, cap);
    var h := d[..size];
    var packed, plain, props := LaidHeaderWritten(h);
    var cs := BodyWritten(d, size, packed, plain, check, out, cap);
    b := Laid(cs, packed, plain, props, h);
    LaidIs(b, check);
  }

  lemma BlockWas(d: seq<Byte>, check: nat, out: seq<Byte>, cap: nat)
    requires d != [] && d[0] != 0 && ReadBlock(d, check, out, cap).Ok?
    ensures var size := 4 * (d[0] as int + 1);
      && 8 <= size <= |d| && d[..size][0] == d[0] && BlockHeader(d[..size]).Ok?
      && ReadBlock(d, check, out, cap) == BlockBody(d, size, BlockHeader(d[..size]).value, check, out, cap)
  {
    hide BlockHeader, BlockBody;
  }

  lemma LaidIs(b: Laid, check: nat)
    requires ChunksGood(b.chunks) && IsHeader(b.header, b.packed, b.plain, b.props)
    requires b.header != [] && |b.header| == 4 * (b.header[0] as int + 1)
    requires Declared(b.packed) == 0 || Declared(b.packed) == |ChunkStream(b.chunks)|
    requires Declared(b.plain) == 0 || Declared(b.plain) == |Payload(b.chunks)|
    ensures LaidGood(b)
    ensures var h, t, p := b.header, ChunkStream(b.chunks), Payload(b.chunks);
      && LaidBytes(b, check) == h + t + Zeros(Fill(|h| + |t|)) + LeBytes(CheckOf(check, p), check)
      && LaidRecord(b, check) == Record(|h| + |t| + check, |p|)
  {
    hide ChunksGood, IsHeader, ChunkStream, Payload, Zeros, Fill, LeBytes, CheckOf, Declared;
  }

  /** What follows an accepted header: the chunks, sizes that match them, padding and check. */
  lemma BodyWritten(d: seq<Byte>, size: nat, packed: Option<nat>, plain: Option<nat>, check: nat, out: seq<Byte>, cap: nat)
    returns (cs: seq<Chunk>)
    requires 8 <= size <= |d| && |out| <= cap
    requires BlockBody(d, size, Sizes(Declared(packed), Declared(plain)), check, out, cap).Ok?
    ensures ChunksGood(cs) && |out| + |Payload(cs)| <= cap
    ensures Declared(packed) == 0 || Declared(packed) == |ChunkStream(cs)|
    ensures Declared(plain) == 0 || Declared(plain) == |Payload(cs)|
    ensures var t, p := ChunkStream(cs), Payload(cs);
      var all := d[..size] + t + Zeros(Fill(size + |t|)) + LeBytes(CheckOf(check, p), check);
      && all <= d
      && BlockBody(d, size, Sizes(Declared(packed), Declared(plain)), check, out, cap).value
           == Block(out + p, Record(size + |t| + check, |p|), |all|)
  {
    hide *;
    var sizes := Sizes(Declared(packed), Declared(plain));
    var limit := if sizes.packed != 0 then sizes.packed else |d| - size;
    BodyWas(d, size, sizes, check, out, cap);
    var c := Chunks(d[size..size + limit], false, out, cap).value;
    cs := ChunksWritten(d[size..size + limit], false, out, cap);
    assert d[size..size + limit][..c.used] == d[size..size + c.used];
    ChunksAre(cs);
    TailWritten(d, size, sizes, check, out, c, Payload(cs));
  }

  lemma AreChunks(cs: seq<Chunk>)
    requires ChunksGood(cs)
    ensures forall c :: c in cs ==> ChunkGood(c)
  {
  }

  lemma ChunksAre(cs: seq<Chunk>)
    requires (forall c :: c in cs ==> ChunkGood(c)) && (cs != [] ==> cs[0].reset)
    ensures ChunksGood(cs)
  {
  }

  lemma BodyWas(d: seq<Byte>, size: nat, sizes: Sizes, check: nat, out: seq<Byte>, cap: nat)
    requires 8 <= size <= |d| && BlockBody(d, size, sizes, check, out, cap).Ok?
    ensures var limit := if sizes.packed != 0 then sizes.packed else |d| - size;
      && limit <= |d| - size && Chunks(d[size..size + limit], false, out, cap).Ok?
      && var c := Chunks(d[size..size + limit], false, out, cap).value;
         c.used <= limit && out <= c.out && BlockBody(d, size, sizes, check, out, cap) == BlockTail(d, size, sizes, check, out, c)
  {
    hide Chunks, BlockTail;
  }

  lemma TailWritten(d: seq<Byte>, size: nat, sizes: Sizes, check: nat, out: seq<Byte>, c: Chunked, p: seq<Byte>)
    requires 8 <= size && size + c.used <= |d| && c.out == out + p
    requires BlockTail(d, size, sizes, check, out, c).Ok?
    ensures (sizes.packed == 0 || sizes.packed == c.used) && (sizes.plain == 0 || sizes.plain == |p|)
    ensures var t := d[size..size + c.used];
      var all := d[..size] + t + Zeros(Fill(size + |t|)) + LeBytes(CheckOf(check, p), check);
      && all <= d && BlockTail(d, size, sizes, check, out, c).value == Block(out + p, Record(size + |t| + check, |p|), |all|)
  {
    hide LeBytes, LeValue, CheckOf, Fill;
    var end := size + c.used;
    var q := end + Fill(end);
    assert c.out[|out|..] == p;
    LeBytesOfValue(d[q..q + check]);
    assert d[end..q] == Zeros(Fill(end));
    assert d[..q + check] == d[..size] + d[size..end] + d[end..q] + d[q..q + check];
  }

  /** One block, exactly. */
  lemma BlockIsExact(d: seq<Byte>, check: nat, out: seq<Byte>, cap: nat, r: Block)
    requires d != [] && d[0] != 0 && |out| <= cap && (check == 0 || check == 4 || check == 8)
    ensures ReadBlock(d, check, out, cap) == Ok(r) <==> exists b :: BlockDenotes(b, d, check, out, cap, r)
  {
    hide LaidGood, ReadBlock, Payload, LaidBytes, LaidRecord;
    if ReadBlock(d, check, out, cap) == Ok(r) {
      var b := LaidWritten(d, check, out, cap);
      assert BlockDenotes(b, d, check, out, cap, r);
    }
    if b :| BlockDenotes(b, d, check, out, cap, r) {
      var rest := d[|LaidBytes(b, check)|..];
      assert d == LaidBytes(b, check) + rest;
      LaidRead(b, check, out, cap, rest);
    }
  }

  ghost predicate BlockDenotes(b: Laid, d: seq<Byte>, check: nat, out: seq<Byte>, cap: nat, r: Block) {
    && LaidGood(b) && LaidBytes(b, check) <= d && |out| + |Payload(b.chunks)| <= cap
    && r == Block(out + Payload(b.chunks), LaidRecord(b, check), |LaidBytes(b, check)|)
  }

  // ---- all blocks -----------------------------------------------------------------------------------

  ghost predicate AllLaid(bs: seq<Laid>) {
    forall b :: b in bs ==> LaidGood(b)
  }

  ghost function AllBytes(bs: seq<Laid>, check: nat): seq<Byte>
    requires AllLaid(bs)
  {
    if bs == [] then [] else LaidBytes(bs[0], check) + AllBytes(bs[1..], check)
  }

  ghost function AllRecords(bs: seq<Laid>, check: nat): (r: seq<Record>)
    requires AllLaid(bs)
    ensures |r| == |bs|
  {
    if bs == [] then [] else [LaidRecord(bs[0], check)] + AllRecords(bs[1..], check)
  }

  function AllPayload(bs: seq<Laid>): seq<Byte> {
    if bs == [] then [] else Payload(bs[0].chunks) + AllPayload(bs[1..])
  }

  lemma {:induction false} AllRead(bs: seq<Laid>, check: nat, out: seq<Byte>, records: seq<Record>, cap: nat, rest: seq<Byte>)
    requires AllLaid(bs) && (check == 0 || check == 4 || check == 8) && |out| + |AllPayload(bs)| <= cap
    requires |records| + |bs| <= MAX_BLOCKS && rest != [] && rest[0] == 0
    ensures ReadBlocks(AllBytes(bs, check) + rest, check, out, records, cap)
      == Ok(Blocks(out + AllPayload(bs), records + AllRecords(bs, check), rest))
    decreases |bs|
  {
    hide ReadBlock, LaidBytes, LaidRecord, Payload, LaidGood;
    if bs == [] {
      assert AllBytes(bs, check) + rest == rest && out + [] == out && records + [] == records;
    } else {
      var b := bs[0];
      var here, there := LaidBytes(b, check), AllBytes(bs[1..], check);
      var p, q := Payload(b.chunks), AllPayload(bs[1..]);
      var d := AllBytes(bs, check) + rest;
      Associates(here, there, rest);
      LaidRead(b, check, out, cap, there + rest);
      assert d[|here|..] == there + rest;
      AllRead(bs[1..], check, out + p, records + [LaidRecord(b, check)], cap, rest);
      Associates(out, p, q);
      Associates(records, [LaidRecord(b, check)], AllRecords(bs[1..], check));
    }
  }

  lemma {:induction false} AllWritten(d: seq<Byte>, check: nat, out: seq<Byte>, records: seq<Record>, cap: nat) returns (bs: seq<Laid>)
    requires ReadBlocks(d, check, out, records, cap).Ok? && |out| <= cap && |records| <= MAX_BLOCKS
    ensures AllLaid(bs) && |records| + |bs| <= MAX_BLOCKS && |out| + |AllPayload(bs)| <= cap
    ensures var r := ReadBlocks(d, check, out, records, cap).value;
      && d == AllBytes(bs, check) + r.rest && r.rest != [] && r.rest[0] == 0
      && r.out == out + AllPayload(bs) && r.records == records + AllRecords(bs, check)
    decreases |d|
  {
    hide ReadBlock, LaidBytes, LaidRecord, Payload, LaidGood;
    if d[0] == 0 {
      bs := [];
      assert AllBytes(bs, check) + d == d && out + [] == out && records + [] == records;
    } else {
      var b := LaidWritten(d, check, out, cap);
      var r := ReadBlock(d, check, out, cap).value;
      var more := AllWritten(d[r.length..], check, r.out, records + [r.record], cap);
      bs := [b] + more;
      assert bs[1..] == more;
      assert d == LaidBytes(b, check) + d[r.length..];
      var end := ReadBlocks(d, check, out, records, cap).value;
      Associates(LaidBytes(b, check), AllBytes(more, check), end.rest);
      Associates(out, Payload(b.chunks), AllPayload(more));
      Associates(records, [r.record], AllRecords(more, check));
    }
  }
}
