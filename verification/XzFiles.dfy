/** Whole .xz files: what is accepted, exactly, and which of it conforms to the format. */
module XzFiles {
  import opened Options
  import opened Sequences
  import opened Bits
  import opened Words
  import opened Vli
  import opened Checksums
  import opened XzModel
  import opened XzTheorems
  import opened XzStream
  import opened XzExact

  /** A file as it may be laid out: the check by number, the blocks, what the footer says of the
      index's size, and groups of four zero bytes behind it. */
  datatype Container = Container(checkId: Byte, blocks: seq<Laid>, backward: nat, padding: nat)

  function CheckBytes(id: Byte): nat {
    if CheckSize(id).Some? then CheckSize(id).value else 0
  }

  ghost predicate ContainerGood(f: Container) {
    && CheckSize(f.checkId).Some? && AllLaid(f.blocks) && |f.blocks| <= MAX_BLOCKS
    && Small(AllRecords(f.blocks, CheckBytes(f.checkId)))
    && f.backward < 0x1_0000_0000
    && (f.backward + 1) * 4 % 0x1_0000_0000 == |IndexBytes(AllRecords(f.blocks, CheckBytes(f.checkId)))|
  }

  function Tail(backward: nat, flags: seq<Byte>): seq<Byte> {
    LeBytes(Crc32(LeBytes(backward, 4) + flags, 0), 4) + (LeBytes(backward, 4) + flags) + FooterMagic()
  }

  function Head(flags: seq<Byte>): seq<Byte> {
    Magic() + flags + LeBytes(Crc32(flags, 0), 4)
  }

  ghost function ContainerBytes(f: Container): seq<Byte>
    requires AllLaid(f.blocks)
  {
    var check, flags := CheckBytes(f.checkId), [0, f.checkId];
    Head(flags) + (AllBytes(f.blocks, check) +
      (IndexBytes(AllRecords(f.blocks, check)) + (Tail(f.backward, flags) + Zeros(4 * f.padding))))
  }

  // ---- the footer -----------------------------------------------------------------------------------

  /** A footer is accepted exactly when it is laid out with a size field that gives the index's
      size modulo 2^32. */
  lemma FooterIsExact(f: seq<Byte>, index: nat, flags: seq<Byte>)
    requires |f| == 12 && |flags| == 2
    ensures var backward := LeValue(f[4..8]);
      FooterOk(f, index, flags) <==> f == Tail(backward, flags) && (backward + 1) * 4 % 0x1_0000_0000 == index
  {
    var backward := LeValue(f[4..8]);
    LeBytesOfValue(f[4..8]);
    LeBytesOfValue(f[..4]);
    hide *;
    var size := f[4..8];
    CrcRead(size + flags);
    FooterParts(f, flags, Crc32(size + flags, 0));
    TailWas(backward, flags);
    FooterWas(f, index, flags);
  }

  lemma FooterParts(f: seq<Byte>, flags: seq<Byte>, crc: nat)
    requires |f| == 12 && |flags| == 2
    ensures f[..4] == LeBytes(crc, 4) && f[8..10] == flags && f[10..12] == FooterMagic() ==>
      f[4..10] == f[4..8] + flags && f == LeBytes(crc, 4) + (f[4..8] + flags) + FooterMagic()
    ensures f == LeBytes(crc, 4) + (f[4..8] + flags) + FooterMagic() ==>
      f[..4] == LeBytes(crc, 4) && f[8..10] == flags && f[10..12] == FooterMagic() && f[4..10] == f[4..8] + flags
    ensures f[8..10] == flags ==> f[4..10] == f[4..8] + flags
  {
    hide LeBytes;
    var t := LeBytes(crc, 4) + (f[4..8] + flags) + FooterMagic();
    assert t[..4] == LeBytes(crc, 4) && t[8..10] == flags && t[10..12] == FooterMagic();
    assert f == f[..4] + (f[4..8] + f[8..10]) + f[10..12];
    assert f[4..10] == f[4..8] + f[8..10];
  }

  lemma TailWas(backward: nat, flags: seq<Byte>)
    ensures Tail(backward, flags) == LeBytes(Crc32(LeBytes(backward, 4) + flags, 0), 4) + (LeBytes(backward, 4) + flags) + FooterMagic()
  {
  }

  lemma FooterWas(f: seq<Byte>, index: nat, flags: seq<Byte>)
    requires |f| == 12
    ensures FooterOk(f, index, flags) <==>
      && Crc32(f[4..10], 0) == LeValue(f[..4]) && (LeValue(f[4..8]) + 1) * 4 % 0x1_0000_0000 == index
      && f[8..10] == flags && f[10..12] == FooterMagic()
  {
    hide Crc32, LeValue;
  }

  lemma TailIs(backward: nat, flags: seq<Byte>)
    requires backward < 0x1_0000_0000 && |flags| == 2
    ensures |Tail(backward, flags)| == 12 && LeValue(Tail(backward, flags)[4..8]) == backward
  {
    hide Crc32, LeBytes, LeValue, Pow2;
    WordSizes();
    LeValueOfBytes(backward, 4);
    assert Tail(backward, flags)[4..8] == LeBytes(backward, 4);
  }

  lemma EndRead(backward: nat, flags: seq<Byte>, padding: nat, index: nat, out: seq<Byte>)
    requires backward < 0x1_0000_0000 && |flags| == 2 && (backward + 1) * 4 % 0x1_0000_0000 == index
    ensures ReadEnd(Tail(backward, flags) + Zeros(4 * padding), flags, index, out) == Ok(out)
  {
    hide *;
    TailIs(backward, flags);
    FooterIsExact(Tail(backward, flags), index, flags);
    ZerosAreZero(4 * padding);
    EndIs(Tail(backward, flags), Zeros(4 * padding), flags, index, out);
  }

  lemma EndWritten(d: seq<Byte>, flags: seq<Byte>, index: nat, out: seq<Byte>) returns (backward: nat, padding: nat)
    requires ReadEnd(d, flags, index, out).Ok? && |flags| == 2
    ensures ReadEnd(d, flags, index, out) == Ok(out) && d == Tail(backward, flags) + Zeros(4 * padding)
    ensures backward < 0x1_0000_0000 && (backward + 1) * 4 % 0x1_0000_0000 == index
  {
    hide FooterOk, Tail, LeValue, Pow2;
    backward, padding := LeValue(d[..12][4..8]), (|d| - 12) / 4;
    FooterIsExact(d[..12], index, flags);
    WordSizes();
    LeBytesOfValue(d[..12][4..8]);
    assert d == d[..12] + d[12..];
    assert d[12..] == Zeros(4 * padding);
  }

  // ---- the stream -------------------------------------------------------------------------------------

  ghost predicate Denotes(f: Container, data: seq<Byte>, cap: nat, out: seq<Byte>) {
    ContainerGood(f) && data == ContainerBytes(f) && out == AllPayload(f.blocks) && |out| <= cap
  }

  lemma HeadRead(flags: seq<Byte>, id: Byte, body: seq<Byte>, cap: nat)
    requires flags == [0, id] && CheckSize(id).Some? && |body| >= 12
    ensures Xz(Head(flags) + body, cap) == ReadBody(body, flags, CheckBytes(id), cap)
  {
    hide Crc32, LeBytes, ReadBody, Xz;
    StreamIs(flags, LeBytes(Crc32(flags, 0), 4), body, CheckBytes(id), cap, id);
  }

  lemma HeadWritten(data: seq<Byte>, cap: nat)
    requires Xz(data, cap).Ok?
    ensures |data| >= 24 && CheckSize(data[7]).Some? && data[6..8] == [0, data[7]]
    ensures data == Head([0, data[7]]) + data[12..] && Xz(data, cap) == ReadBody(data[12..], [0, data[7]], CheckBytes(data[7]), cap)
  {
    hide Crc32, LeBytes, LeValue, ReadBody;
    assert data[7] % 16 == data[7];
    assert data[6..8] == [data[6], data[7]];
    LeBytesOfValue(data[8..12]);
    assert data == data[..6] + data[6..8] + data[8..12] + data[12..];
  }

  /** Behind the header. */
  lemma BodyRead(f: Container, cap: nat)
    requires ContainerGood(f) && |AllPayload(f.blocks)| <= cap
    ensures var check, flags := CheckBytes(f.checkId), [0, f.checkId];
      var index := IndexBytes(AllRecords(f.blocks, check));
      var foot := Tail(f.backward, flags) + Zeros(4 * f.padding);
      && |index + foot| >= 12
      && ReadBody(AllBytes(f.blocks, check) + (index + foot), flags, check, cap) == Ok(AllPayload(f.blocks))
  {
    hide *;
    GoodIs(f);
    var check, flags: seq<Byte> := CheckBytes(f.checkId), [0, f.checkId];
    var rs := AllRecords(f.blocks, check);
    var index := IndexBytes(rs);
    var foot := Tail(f.backward, flags) + Zeros(4 * f.padding);
    TailIs(f.backward, flags);
    IndexParts(rs, foot);
    IndexRead(rs, foot);
    EndRead(f.backward, flags, f.padding, |index|, AllPayload(f.blocks));
    AllRead(f.blocks, check, [], [], cap, index + foot);
    assert [] + AllPayload(f.blocks) == AllPayload(f.blocks) && [] + rs == rs;
    XzStream.BodyIs(AllBytes(f.blocks, check) + (index + foot), flags, check, cap,
                    Blocks(AllPayload(f.blocks), rs, index + foot), |index|, AllPayload(f.blocks));
  }

  lemma GoodIs(f: Container)
    requires ContainerGood(f)
    ensures var check := CheckBytes(f.checkId);
      && CheckSize(f.checkId) == Some(check) && (check == 0 || check == 4 || check == 8)
      && AllLaid(f.blocks) && |f.blocks| <= MAX_BLOCKS && Small(AllRecords(f.blocks, check))
      && f.backward < 0x1_0000_0000 && (f.backward + 1) * 4 % 0x1_0000_0000 == |IndexBytes(AllRecords(f.blocks, check))|
  {
    hide AllLaid, Small, AllRecords, IndexBytes;
  }

  lemma BodyWritten(d: seq<Byte>, id: Byte, cap: nat) returns (f: Container)
    requires CheckSize(id).Some? && ReadBody(d, [0, id], CheckBytes(id), cap).Ok?
    ensures ContainerGood(f) && f.checkId == id && |AllPayload(f.blocks)| <= cap
    ensures ReadBody(d, [0, id], CheckBytes(id), cap) == Ok(AllPayload(f.blocks))
    ensures var check, flags := CheckBytes(id), [0, id];
      d == AllBytes(f.blocks, check) + (IndexBytes(AllRecords(f.blocks, check)) + (Tail(f.backward, flags) + Zeros(4 * f.padding)))
  {
    hide *;
    var check, flags: seq<Byte> := CheckBytes(id), [0, id];
    BodyWas(d, flags, check, cap);
    var b := ReadBlocks(d, check, [], [], cap).value;
    var bs := AllWritten(d, check, [], [], cap);
    assert [] + AllPayload(bs) == AllPayload(bs) && [] + AllRecords(bs, check) == AllRecords(bs, check);
    IndexWritten(b.rest, b.records);
    var index := ReadIndex(b.rest, b.records).value;
    assert b.rest == IndexBytes(b.records) + b.rest[index..];
    var backward, padding := EndWritten(b.rest[index..], flags, index, b.out);
    f := Container(id, bs, backward, padding);
    IsGood(f);
  }

  lemma BodyWas(d: seq<Byte>, flags: seq<Byte>, check: nat, cap: nat)
    requires ReadBody(d, flags, check, cap).Ok?
    ensures ReadBlocks(d, check, [], [], cap).Ok?
    ensures var b := ReadBlocks(d, check, [], [], cap).value;
      && ReadIndex(b.rest, b.records).Some?
      && var index := ReadIndex(b.rest, b.records).value;
         ReadBody(d, flags, check, cap) == ReadEnd(b.rest[index..], flags, index, b.out)
  {
    hide ReadBlocks, ReadIndex, ReadEnd;
  }

  lemma IsGood(f: Container)
    requires CheckSize(f.checkId).Some? && AllLaid(f.blocks) && |f.blocks| <= MAX_BLOCKS && f.backward < 0x1_0000_0000
    requires Small(AllRecords(f.blocks, CheckBytes(f.checkId)))
    requires (f.backward + 1) * 4 % 0x1_0000_0000 == |IndexBytes(AllRecords(f.blocks, CheckBytes(f.checkId)))|
    ensures ContainerGood(f)
  {
    hide AllLaid, Small, AllRecords, IndexBytes, CheckBytes, CheckSize;
  }

  /** Acceptance, exactly: data is accepted for an output if and only if it is laid out so. */
  lemma XzIsExact(data: seq<Byte>, cap: nat, out: seq<Byte>)
    ensures Xz(data, cap) == Ok(out) <==> exists f :: Denotes(f, data, cap, out)
  {
    hide Xz, ReadBody, ContainerGood, AllBytes, AllRecords, AllPayload, IndexBytes, Tail, Head, Zeros, CheckBytes;
    if Xz(data, cap) == Ok(out) {
      HeadWritten(data, cap);
      var f := BodyWritten(data[12..], data[7], cap);
      assert Denotes(f, data, cap, out);
    }
    if f :| Denotes(f, data, cap, out) {
      ContainerRead(f, cap);
    }
  }

  lemma ContainerRead(f: Container, cap: nat)
    requires ContainerGood(f) && |AllPayload(f.blocks)| <= cap
    ensures AllLaid(f.blocks) && Xz(ContainerBytes(f), cap) == Ok(AllPayload(f.blocks))
  {
    hide Xz, ReadBody, ContainerGood, AllLaid, AllBytes, AllRecords, AllPayload, IndexBytes, Tail, Head, Zeros, CheckBytes;
    GoodIs(f);
    BodyRead(f, cap);
    var check, flags := CheckBytes(f.checkId), [0, f.checkId];
    HeadRead(flags, f.checkId, AllBytes(f.blocks, check) +
      (IndexBytes(AllRecords(f.blocks, check)) + (Tail(f.backward, flags) + Zeros(4 * f.padding))), cap);
  }

  // ---- beyond the format ------------------------------------------------------------------------------

  /** What the format demands of a block header and the code does not: the fields end before the
      check, a declared compressed size is not zero, and a declared size is the size. */
  ghost predicate BlockConforms(b: Laid)
    requires LaidGood(b)
  {
    && 1 + |Fields(b.packed, b.plain, b.props)| <= |b.header| - 4
    && (b.packed.Some? ==> b.packed.value == |ChunkStream(b.chunks)|)
    && (b.plain.Some? ==> b.plain.value == |Payload(b.chunks)|)
  }

  ghost predicate Conforms(f: Container)
    requires ContainerGood(f)
  {
    && (forall b :: b in f.blocks ==> BlockConforms(b))
    && (f.backward + 1) * 4 == |IndexBytes(AllRecords(f.blocks, CheckBytes(f.checkId)))|
  }

  /** How many groups of seven bits a number has. */
  function GroupCount(v: nat): (n: nat)
    ensures n >= 1
  {
    if v < 128 then 1 else 1 + GroupCount(v / 128)
  }

  lemma {:induction false} GroupCountIs(v: nat)
    ensures |EncodeVli(v)| == GroupCount(v)
  {
    if v >= 128 {
      GroupCountIs(v / 128);
    }
  }

  lemma {:induction false} FewGroupsExactly(v: nat, k: nat)
    requires k >= 1
    ensures GroupCount(v) <= k <==> v < Pow2(7 * k)
    decreases k
  {
    Groups(k);
    if k == 1 {
      assert Pow2(0) == 1;
    } else if v >= 128 {
      FewGroupsExactly(v / 128, k - 1);
    } else {
      Pow2Monotone(7, 7 * k);
      Groups(1);
      assert Pow2(0) == 1;
    }
  }

  function SizeLength(v: Option<nat>): nat {
    if v.Some? then GroupCount(v.value) else 0
  }

  /** The size byte leaves room for what the flags announce, and no size is declared to be zero
      that is not. */
  predicate HeaderIsPlain(b: Laid)
    requires b.header != []
  {
    && 5 + SizeLength(b.packed) + SizeLength(b.plain) <= 4 * b.header[0] as int
    && b.packed != Some(0) && (b.plain == Some(0) ==> Payload(b.chunks) == [])
  }

  lemma RoomExactly(b: Laid)
    requires LaidGood(b)
    ensures |b.header| >= 8 && b.header != []
    ensures 1 + |Fields(b.packed, b.plain, b.props)| <= |b.header| - 4 <==>
      5 + SizeLength(b.packed) + SizeLength(b.plain) <= 4 * b.header[0] as int
  {
    if b.packed.Some? {
      GroupCountIs(b.packed.value);
    }
    if b.plain.Some? {
      GroupCountIs(b.plain.value);
    }
    hide EncodeVli, Crc32, LeValue, Pow2, ChunksGood, ChunkStream, Payload;
  }

  /** By the size byte alone: a header of eight bytes always runs into its check, one of 28 bytes
      or more never does, and one that declares no sizes does exactly when it has eight bytes. */
  lemma SizeByteDecides(b: Laid)
    requires LaidGood(b)
    ensures b.header != []
    ensures var room := 5 + SizeLength(b.packed) + SizeLength(b.plain) <= 4 * b.header[0] as int;
      && (|b.header| == 8 ==> !room) && (|b.header| >= 28 ==> room)
      && (b.packed.None? && b.plain.None? ==> (room <==> |b.header| > 8))
  {
    RoomExactly(b);
    SizesAreSmall(b);
    PowersOfSeven();
    hide LaidGood, GroupCount, Pow2;
    if b.packed.Some? {
      FewGroupsExactly(b.packed.value, 9);
    }
    if b.plain.Some? {
      FewGroupsExactly(b.plain.value, 9);
    }
  }

  lemma SizesAreSmall(b: Laid)
    requires LaidGood(b)
    ensures Declared(b.packed) < Pow2(63) && Declared(b.plain) < Pow2(63)
    ensures b.header != [] && |b.header| == 4 * (b.header[0] as int + 1)
  {
    hide Fields, Crc32, LeValue, Pow2, ChunksGood, ChunkStream, Payload;
  }

  /** A file that is accepted conforms to the format exactly when the size byte of every block
      header leaves room for its fields, no declared size is zero for something, and the footer's
      size field is below 2^30. */
  lemma ConformsExactly(f: Container)
    requires ContainerGood(f)
    ensures forall b :: b in f.blocks ==> b.header != []
    ensures Conforms(f) <==>
      (forall b :: b in f.blocks ==> HeaderIsPlain(b)) && f.backward < 0x4000_0000
  {
    GoodIs(f);
    hide *;
    var index := |IndexBytes(AllRecords(f.blocks, CheckBytes(f.checkId)))|;
    IndexIsSome(AllRecords(f.blocks, CheckBytes(f.checkId)));
    BackwardStates(f.backward, index);
    forall b | b in f.blocks
      ensures b.header != [] && LaidGood(b) && (BlockConforms(b) <==> HeaderIsPlain(b))
    {
      IsLaid(f.blocks, b);
      BlockConformsExactly(b);
    }
    ConformsIs(f, index);
  }

  lemma IsLaid(bs: seq<Laid>, b: Laid)
    requires AllLaid(bs) && b in bs
    ensures LaidGood(b)
  {
    hide LaidGood;
  }

  lemma ConformsIs(f: Container, index: nat)
    requires ContainerGood(f) && AllLaid(f.blocks) && forall b :: b in f.blocks ==> LaidGood(b)
    requires index == |IndexBytes(AllRecords(f.blocks, CheckBytes(f.checkId)))|
    ensures Conforms(f) <==> (forall b :: b in f.blocks ==> BlockConforms(b)) && (f.backward + 1) * 4 == index
  {
    hide ContainerGood, AllLaid, LaidGood, BlockConforms, IndexBytes, AllRecords, CheckBytes;
  }

  lemma BlockConformsExactly(b: Laid)
    requires LaidGood(b)
    ensures b.header != [] && (BlockConforms(b) <==> HeaderIsPlain(b))
  {
    RoomExactly(b);
    hide IsHeader, Fields, Payload, ChunkStream, SizeLength;
    StreamIsSome(b);
  }

  lemma IndexIsSome(rs: seq<Record>)
    ensures |IndexBytes(rs)| > 0
  {
    hide IndexBody, Crc32, Zeros;
  }

  lemma StreamIsSome(b: Laid)
    requires LaidGood(b)
    ensures forall c :: c in b.chunks ==> ChunkGood(c)
    ensures |ChunkStream(b.chunks)| > 0 && (Payload(b.chunks) == [] <==> |Payload(b.chunks)| == 0)
  {
    hide IsHeader, Payload, ChunkBytes;
  }

  lemma BackwardStates(backward: nat, index: nat)
    requires backward < 0x1_0000_0000 && (backward + 1) * 4 % 0x1_0000_0000 == index
    ensures index > 0 ==> ((backward + 1) * 4 == index <==> backward < 0x4000_0000)
    ensures index % 0x1_0000_0000 == index
  {
    if backward < 0x4000_0000 - 1 {
      assert (backward + 1) * 4 < 0x1_0000_0000;
    }
  }
}
