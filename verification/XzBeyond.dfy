/** Files that the .xz reader accepts though they do not conform to the format: one of each kind
    that there is. */
module XzBeyond {
  import opened Options
  import opened Bits
  import opened Words
  import opened Vli
  import opened Checksums
  import opened CrcValues
  import opened XzModel
  import opened XzTheorems
  import opened XzStream
  import opened XzExact
  import opened XzFiles

  // ---- footers ----------------------------------------------------------------------------------

  /** Any accepted file is still accepted when its footer's size field is moved by 2^30. */
  lemma FooterWraps(f: Container, backward: nat)
    requires ContainerGood(f) && backward < 0x1_0000_0000 && backward % 0x4000_0000 == f.backward % 0x4000_0000
    ensures ContainerGood(f.(backward := backward))
  {
    hide AllLaid, Small, AllRecords, IndexBytes, CheckBytes, CheckSize;
    SameSize(backward, f.backward);
  }

  lemma SameSize(a: nat, b: nat)
    requires a % 0x4000_0000 == b % 0x4000_0000
    ensures (a + 1) * 4 % 0x1_0000_0000 == (b + 1) * 4 % 0x1_0000_0000
  {
    var m := 0x4000_0000;
    assert (a + 1) * 4 == (a % m + 1) * 4 + 0x1_0000_0000 * (a / m);
    assert (b + 1) * 4 == (b % m + 1) * 4 + 0x1_0000_0000 * (b / m);
  }

  /** Moved up, it gives a file that does not conform. */
  lemma WrappedFooterFile(f: Container, cap: nat) returns (g: Container)
    requires ContainerGood(f) && Conforms(f) && |AllPayload(f.blocks)| <= cap
    ensures ContainerGood(g) && !Conforms(g) && g == f.(backward := f.backward + 0x4000_0000)
    ensures Xz(ContainerBytes(g), cap) == Ok(AllPayload(f.blocks))
  {
    hide *;
    ConformsExactly(f);
    g := f.(backward := f.backward + 0x4000_0000);
    FooterWraps(f, f.backward + 0x4000_0000);
    ConformsExactly(g);
    ContainerRead(g, cap);
  }

  // ---- a file of one block ----------------------------------------------------------------------

  ghost function OneBlock(b: Laid, id: Byte): Container
    requires LaidGood(b)
  {
    var index := |IndexBytes([LaidRecord(b, CheckBytes(id))])|;
    Container(id, [b], if index >= 4 then index / 4 - 1 else 0, 0)
  }

  /** Around any accepted block there is an accepted file, and it conforms exactly when the block
      does. */
  lemma OneBlockFile(b: Laid, id: Byte, cap: nat)
    requires LaidGood(b) && CheckSize(id).Some? && |Payload(b.chunks)| <= cap
    requires |b.header| + |ChunkStream(b.chunks)| + 8 < Pow2(63) && |Payload(b.chunks)| < Pow2(63)
    ensures var f := OneBlock(b, id);
      && ContainerGood(f) && (Conforms(f) <==> BlockConforms(b))
      && Xz(ContainerBytes(f), cap) == Ok(Payload(b.chunks))
  {
    hide *;
    var f := OneBlock(b, id);
    OneRecord(b, id);
    OneBlockIs(b, id);
    IsGood(f);
    OneBlockConforms(b, id);
    ContainerRead(f, cap);
  }

  lemma OneRecord(b: Laid, id: Byte)
    requires LaidGood(b) && CheckSize(id).Some?
    requires |b.header| + |ChunkStream(b.chunks)| + 8 < Pow2(63) && |Payload(b.chunks)| < Pow2(63)
    ensures var rs := [LaidRecord(b, CheckBytes(id))];
      && AllLaid([b]) && AllRecords([b], CheckBytes(id)) == rs && AllPayload([b]) == Payload(b.chunks) && Small(rs)
      && 4 <= |IndexBytes(rs)| < 0x1_0000_0000 && |IndexBytes(rs)| % 4 == 0
  {
    var rs := [LaidRecord(b, CheckBytes(id))];
    OneIsAll(b, CheckBytes(id));
    OneIsSmall(b, id);
    hide *;
    IndexSize(rs);
  }

  lemma OneIsAll(b: Laid, check: nat)
    requires LaidGood(b)
    ensures AllLaid([b]) && AllRecords([b], check) == [LaidRecord(b, check)] && AllPayload([b]) == Payload(b.chunks)
    ensures |[LaidRecord(b, check)]| <= MAX_BLOCKS
  {
    hide LaidGood, LaidRecord, Payload;
    assert [b][1..] == [] && AllPayload([]) == [];
  }

  lemma OneIsSmall(b: Laid, id: Byte)
    requires LaidGood(b) && CheckSize(id).Some?
    requires |b.header| + |ChunkStream(b.chunks)| + 8 < Pow2(63) && |Payload(b.chunks)| < Pow2(63)
    ensures Small([LaidRecord(b, CheckBytes(id))])
  {
    hide LaidGood, ChunkStream, Payload, Pow2;
  }

  lemma OneBlockIs(b: Laid, id: Byte)
    requires LaidGood(b)
    requires var n := |IndexBytes([LaidRecord(b, CheckBytes(id))])|; 4 <= n < 0x1_0000_0000 && n % 4 == 0
    ensures var f := OneBlock(b, id);
      && f.checkId == id && f.blocks == [b] && |f.blocks| <= MAX_BLOCKS && f.backward < 0x4000_0000
      && (f.backward + 1) * 4 == |IndexBytes([LaidRecord(b, CheckBytes(id))])|
      && (f.backward + 1) * 4 % 0x1_0000_0000 == (f.backward + 1) * 4
  {
    hide LaidGood, LaidRecord, IndexBytes, CheckBytes;
  }

  lemma OneBlockConforms(b: Laid, id: Byte)
    requires LaidGood(b) && ContainerGood(OneBlock(b, id)) && OneBlock(b, id).blocks == [b] && OneBlock(b, id).checkId == id
    requires (OneBlock(b, id).backward + 1) * 4 == |IndexBytes(AllRecords([b], CheckBytes(id)))|
    ensures Conforms(OneBlock(b, id)) <==> BlockConforms(b)
  {
    hide LaidGood, AllRecords, IndexBytes, CheckBytes, ContainerGood, OneBlock, BlockConforms;
    assert b in [b];
  }

  // ---- sizes declared to be zero ----------------------------------------------------------------

  function HeaderOf(packed: Option<nat>, plain: Option<nat>, props: Byte, pad: nat): seq<Byte>
    requires (|Fields(packed, plain, props)| + pad + 5) % 4 == 0 && |Fields(packed, plain, props)| + pad + 5 <= 1024
  {
    var body: seq<Byte> := [(|Fields(packed, plain, props)| + pad + 5) / 4 - 1] + Fields(packed, plain, props) + Zeros(pad);
    body + LeBytes(Crc32(body, 0), 4)
  }

  lemma HeaderOfIs(packed: Option<nat>, plain: Option<nat>, props: Byte, pad: nat)
    requires |Fields(packed, plain, props)| >= 4 && props <= 40 && Declared(packed) < Pow2(63) && Declared(plain) < Pow2(63)
    requires (|Fields(packed, plain, props)| + pad + 5) % 4 == 0 && |Fields(packed, plain, props)| + pad + 5 <= 1024
    ensures var h := HeaderOf(packed, plain, props, pad);
      IsHeader(h, packed, plain, props) && |h| == |Fields(packed, plain, props)| + pad + 5 == 4 * (h[0] as int + 1)
  {
    hide *;
    var f, h := Fields(packed, plain, props), HeaderOf(packed, plain, props, pad);
    var size: seq<Byte> := [(|f| + pad + 5) / 4 - 1];
    var body := size + f + Zeros(pad);
    var crc := LeBytes(Crc32(body, 0), 4);
    HeaderOfParts(packed, plain, props, pad);
    CrcRead(body);
    BodyParts(size, f, Zeros(pad), crc, h);
    LaidOut(size, f, pad, crc);
    HeaderIs(h, packed, plain, props);
  }

  lemma HeaderOfParts(packed: Option<nat>, plain: Option<nat>, props: Byte, pad: nat)
    requires (|Fields(packed, plain, props)| + pad + 5) % 4 == 0 && |Fields(packed, plain, props)| + pad + 5 <= 1024
    ensures var f := Fields(packed, plain, props);
      var size: seq<Byte> := [(|f| + pad + 5) / 4 - 1];
      var body := size + f + Zeros(pad);
      HeaderOf(packed, plain, props, pad) == body + LeBytes(Crc32(body, 0), 4) && |LeBytes(Crc32(body, 0), 4)| == 4
  {
    hide Fields, Crc32, LeBytes, Zeros;
  }

  lemma LaidOut(size: seq<Byte>, f: seq<Byte>, pad: nat, crc: seq<Byte>)
    requires |size| == 1 && |crc| == 4
    ensures var h := size + f + Zeros(pad) + crc;
      && |h| == |f| + pad + 5 && h[..|h| - 4] == size + f + Zeros(pad) && h[|h| - 4..] == crc
      && h[0] == size[0] && (1 + |f| < |h| - 4 ==> AllZero(h[1 + |f|..|h| - 4]))
  {
    var h := size + f + Zeros(pad) + crc;
    assert h[1 + |f|..|h| - 4] == Zeros(pad);
    assert h[..|h| - 4] == size + f + Zeros(pad);
  }

  /** Whatever the chunks hold, a block is accepted that declares both its sizes to be zero. */
  lemma ZeroSizesAreAccepted(cs: seq<Chunk>)
    requires ChunksGood(cs)
    ensures |Fields(Some(0), Some(0), 0)| == 6
    ensures LaidGood(Laid(cs, Some(0), Some(0), 0, HeaderOf(Some(0), Some(0), 0, 1)))
    ensures |HeaderOf(Some(0), Some(0), 0, 1)| == 12
  {
    ZeroFields();
    hide IsHeader, ChunkStream, Payload, ChunksGood, HeaderOf, Fields, EncodeVli, Pow2;
    assert Declared(Some(0)) == 0;
    HeaderOfIs(Some(0), Some(0), 0, 1);
  }

  lemma ZeroFields()
    ensures |Fields(Some(0), Some(0), 0)| == 6 && Pow2(63) > 0
  {
    assert EncodeVli(0) == [0];
  }

  lemma ZeroSizesDoNotConform(b: Laid)
    requires LaidGood(b) && b.packed == Some(0)
    ensures !BlockConforms(b)
  {
    StreamIsSome(b);
    hide LaidGood, ChunkStream, Fields;
  }

  /** So for any chunks there is an accepted file that declares both sizes to be zero, and it does
      not conform. */
  lemma ZeroSizesFile(cs: seq<Chunk>, id: Byte, cap: nat) returns (f: Container)
    requires ChunksGood(cs) && CheckSize(id).Some? && |Payload(cs)| <= cap
    requires |ChunkStream(cs)| + 24 < Pow2(63) && |Payload(cs)| < Pow2(63)
    ensures ContainerGood(f) && !Conforms(f) && Xz(ContainerBytes(f), cap) == Ok(Payload(cs))
  {
    var b := Laid(cs, Some(0), Some(0), 0, HeaderOf(Some(0), Some(0), 0, 1));
    ZeroSizesAreAccepted(cs);
    ZeroSizesDoNotConform(b);
    hide *;
    OneBlockFile(b, id, cap);
    f := OneBlock(b, id);
  }

  // ---- a header that runs into its check --------------------------------------------------------

  /** Eight bytes, the last four of them the check of the first four, and the first of those the
      property byte. */
  function ShortHeader(): seq<Byte> {
    [1, 0, 0x21, 1, 0x0C, 0x9D, 0x60, 0x62]
  }

  /** Of the headers of eight bytes that declare no sizes, this one is accepted, and no other. */
  lemma ShortHeaderIsAcceptedExactly(h: seq<Byte>)
    requires |h| == 8 && h[0] == 1 && h[1] == 0
    ensures BlockHeader(h).Ok? <==> h == ShortHeader()
  {
    ShortParts();
    ShortHeaderCheck();
    hide *;
    if BlockHeader(h).Ok? {
      ShortWas(h);
    } else if h == ShortHeader() {
      ShortIsHeader();
      LaidHeaderRead(h, None, None, 0x0C);
    }
  }

  lemma ShortParts()
    ensures var h := ShortHeader();
      && h[..4] == [1, 0, 0x21, 1] && LeValue(h[4..]) == 0x6260_9D0C && LeBytes(0x6260_9D0C, 4) == h[4..]
      && Fields(None, None, 0x0C) == h[1..5]
  {
    var a: seq<Byte>, b: seq<Byte>, c: seq<Byte> := [0x62], [0x60, 0x62], [0x9D, 0x60, 0x62];
    assert ShortHeader()[4..][1..] == c && c[1..] == b && b[1..] == a && a[1..] == [];
    assert LeValue(a) == 0x62 && LeValue(b) == 0x6260 && LeValue(c) == 0x62_609D;
    LeBytesOfValue(ShortHeader()[4..]);
  }

  lemma ShortIsHeader()
    ensures IsHeader(ShortHeader(), None, None, 0x0C)
  {
    ShortParts();
    ShortHeaderCheck();
    PowersOfTwo();
    Pow2Monotone(32, 63);
    assert Declared(None) == 0;
    hide Crc32, LeValue, Fields, Pow2, IsHeader, AllZero, Declared;
    HeaderIs(ShortHeader(), None, None, 0x0C);
  }

  lemma ShortWas(h: seq<Byte>)
    requires |h| == 8 && h[0] == 1 && h[1] == 0 && BlockHeader(h).Ok?
    requires Crc32([1, 0, 0x21, 1], 0) == 0x6260_9D0C && LeBytes(0x6260_9D0C, 4) == ShortHeader()[4..]
    ensures h == ShortHeader()
  {
    hide Crc32, LeValue, LeBytes, BlockHeader, ReadFilters, AllZero, Pow2;
    var x, y, fs := HeaderWas(h);
    FilterWritten(h, 2);
    assert h[2..5] == [0x21, 1, h[4]];
    assert h[2] == h[2..5][0] && h[3] == h[2..5][1];
    assert h[..4] == [1, 0, 0x21, 1];
    LeBytesOfValue(h[4..]);
    assert h == h[..4] + h[4..];
    assert ShortHeader() == [1, 0, 0x21, 1] + ShortHeader()[4..];
  }

  /** For any chunks there is an accepted file with this header, and it does not conform. */
  lemma ShortHeaderFile(cs: seq<Chunk>, id: Byte, cap: nat) returns (f: Container)
    requires ChunksGood(cs) && CheckSize(id).Some? && |Payload(cs)| <= cap
    requires |ChunkStream(cs)| + 24 < Pow2(63) && |Payload(cs)| < Pow2(63)
    ensures ContainerGood(f) && !Conforms(f) && Xz(ContainerBytes(f), cap) == Ok(Payload(cs))
  {
    var b := Laid(cs, None, None, 0x0C, ShortHeader());
    ShortIsHeader();
    LaidShort(b);
    hide *;
    OneBlockFile(b, id, cap);
    f := OneBlock(b, id);
  }

  lemma LaidShort(b: Laid)
    requires ChunksGood(b.chunks) && b.packed == b.plain == None && b.header == ShortHeader()
    requires IsHeader(b.header, None, None, b.props)
    ensures LaidGood(b) && !BlockConforms(b) && |b.header| == 8
  {
    assert Declared(None) == 0;
    hide IsHeader, Payload, ChunkStream, ChunksGood;
    SizeByteDecides(b);
    RoomExactly(b);
  }
}
