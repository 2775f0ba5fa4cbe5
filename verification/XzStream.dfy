/** The index and the whole .xz file: what is written reads back, and what is accepted has the
    one index that lists its blocks. */
module XzStream {
  import opened Options
  import opened Bits
  import opened Words
  import opened Vli
  import opened Checksums
  import opened XzModel
  import opened XzTheorems

  // ---- the index ----------------------------------------------------------------------------------

  function RecordBytes(rs: seq<Record>): seq<Byte> {
    if rs == [] then [] else EncodeVli(rs[0].unpadded) + EncodeVli(rs[0].plain) + RecordBytes(rs[1..])
  }

  /** The index without padding and check. */
  function IndexBody(rs: seq<Record>): seq<Byte> {
    [0] + EncodeVli(|rs|) + RecordBytes(rs)
  }

  function IndexBytes(rs: seq<Record>): seq<Byte> {
    var padded := IndexBody(rs) + Zeros(Fill(|IndexBody(rs)|));
    padded + LeBytes(Crc32(padded, 0), 4)
  }

  predicate Small(rs: seq<Record>) {
    forall r :: r in rs ==> r.unpadded < Pow2(63) && r.plain < Pow2(63)
  }

  lemma RecordsStep(d: seq<Byte>, p: nat, rs: seq<Record>, a: Vli, b: Vli)
    requires rs != [] && VliAt(d, p) == Some(a) && VliAt(d, p + a.length) == Some(b) && rs[0] == Record(a.value, b.value)
    ensures ReadRecords(d, p, rs) == ReadRecords(d, p + a.length + b.length, rs[1..])
  {
    hide VliAt;
  }

  lemma NoRecords(d: seq<Byte>, p: nat)
    ensures ReadRecords(d, p, []) == Some(p) && RecordBytes([]) == []
  {
  }

  lemma FirstRecord(rs: seq<Record>)
    requires rs != [] && Small(rs)
    ensures rs[0].unpadded < Pow2(63) && rs[0].plain < Pow2(63) && Small(rs[1..])
    ensures RecordBytes(rs) == EncodeVli(rs[0].unpadded) + EncodeVli(rs[0].plain) + RecordBytes(rs[1..])
  {
    hide EncodeVli, Pow2;
  }

  lemma {:induction false} RecordsRead(d: seq<Byte>, p: nat, rs: seq<Record>)
    requires Small(rs) && At(d, p, RecordBytes(rs))
    ensures ReadRecords(d, p, rs) == Some(p + |RecordBytes(rs)|)
    decreases |rs|
  {
    hide *;
    if rs == [] {
      NoRecords(d, p);
    } else {
      FirstRecord(rs);
      var a, b, more := EncodeVli(rs[0].unpadded), EncodeVli(rs[0].plain), RecordBytes(rs[1..]);
      var all := RecordBytes(rs);
      ThreeParts(a, b, more);
      AtInside(d, p, all, 0, a);
      AtInside(d, p, all, |a|, b);
      AtInside(d, p, all, |a| + |b|, more);
      VliRead(d, p, rs[0].unpadded);
      VliRead(d, p + |a|, rs[0].plain);
      RecordsStep(d, p, rs, Vli(rs[0].unpadded, |a|), Vli(rs[0].plain, |b|));
      RecordsRead(d, p + |a| + |b|, rs[1..]);
    }
  }

  lemma ThreeParts(a: seq<Byte>, b: seq<Byte>, c: seq<Byte>)
    ensures var f := a + b + c; At(f, 0, a) && At(f, |a|, b) && At(f, |a| + |b|, c)
  {
  }

  /** A number read is the one encoding of it. */
  lemma VliWritten(h: seq<Byte>, p: nat)
    requires VliAt(h, p).Some?
    ensures var v := VliAt(h, p).value;
      v.value < Pow2(63) && At(h, p, EncodeVli(v.value)) && v.length == |EncodeVli(v.value)| && p + v.length <= |h|
  {
    var v := VliAt(h, p).value;
    hide EncodeVli, Pow2;
    VliIsExact(h[p..], v.value, v.length);
    assert h[p..][..v.length] == h[p..p + v.length];
  }

  lemma {:induction false} RecordsWritten(d: seq<Byte>, p: nat, rs: seq<Record>)
    requires p <= |d| && ReadRecords(d, p, rs).Some?
    ensures Small(rs) && At(d, p, RecordBytes(rs)) && ReadRecords(d, p, rs).value == p + |RecordBytes(rs)|
    decreases |rs|
  {
    hide EncodeVli, Pow2, VliAt;
    if rs != [] {
      VliWritten(d, p);
      var a := VliAt(d, p).value;
      VliWritten(d, p + a.length);
      var b := VliAt(d, p + a.length).value;
      RecordsWritten(d, p + a.length + b.length, rs[1..]);
      Joined3(d, p, EncodeVli(a.value), EncodeVli(b.value), RecordBytes(rs[1..]));
    } else {
      assert d[p..p] == [];
    }
  }

  lemma Joined3(d: seq<Byte>, p: nat, a: seq<Byte>, b: seq<Byte>, c: seq<Byte>)
    requires At(d, p, a) && At(d, p + |a|, b) && At(d, p + |a| + |b|, c)
    ensures At(d, p, a + b + c)
  {
    assert d[p..p + |a + b + c|] == d[p..p + |a|] + d[p + |a|..p + |a| + |b|] + d[p + |a| + |b|..p + |a| + |b| + |c|];
  }

  lemma IndexParts(rs: seq<Record>, rest: seq<Byte>)
    ensures var d, body := IndexBytes(rs) + rest, IndexBody(rs);
      var z := Zeros(Fill(|body|));
      && At(d, 1, EncodeVli(|rs|)) && At(d, 1 + |EncodeVli(|rs|)|, RecordBytes(rs))
      && |body| == 1 + |EncodeVli(|rs|)| + |RecordBytes(rs)| && |IndexBytes(rs)| == |body| + |z| + 4
      && d[|body|..|body| + |z|] == z && d[..|body| + |z|] == body + z
      && d[|body| + |z|..|body| + |z| + 4] == LeBytes(Crc32(body + z, 0), 4)
      && d[0] == 0 && d[|IndexBytes(rs)|..] == rest
  {
    hide EncodeVli, RecordBytes, Crc32, LeBytes, Zeros;
    var n, r := EncodeVli(|rs|), RecordBytes(rs);
    var body := IndexBody(rs);
    var z := Zeros(Fill(|body|));
    var k := LeBytes(Crc32(body + z, 0), 4);
    var d := IndexBytes(rs) + rest;
    var zero: seq<Byte> := [0];
    assert d == body + z + k + rest && body == zero + n + r;
    assert d == zero + n + (r + z + k + rest);
    Pieces(zero, n, r + z + k + rest);
    assert d == zero + n + r + (z + k + rest);
    Pieces(zero + n, r, z + k + rest);
  }

  lemma IndexIs(d: seq<Byte>, rs: seq<Record>, n: Vli, p: nat, z: seq<Byte>)
    requires VliAt(d, 1) == Some(n) && n.value == |rs| && ReadRecords(d, 1 + n.length, rs) == Some(p)
    requires p + |z| + 4 <= |d| && |z| == Fill(p) && AllZero(z) && d[p..p + |z|] == z
    requires Crc32(d[..p + |z|], 0) == LeValue(d[p + |z|..p + |z| + 4])
    ensures ReadIndex(d, rs) == Some(p + |z| + 4)
  {
    hide VliAt, ReadRecords, Crc32, LeValue, AllZero;
  }

  lemma FewRecords(rs: seq<Record>)
    requires |rs| <= MAX_BLOCKS
    ensures |rs| < Pow2(63)
  {
    SmallVlis();
  }

  lemma ZerosAreZero(n: nat)
    ensures AllZero(Zeros(n)) && |Zeros(n)| == n
  {
  }

  lemma IndexRead(rs: seq<Record>, rest: seq<Byte>)
    requires Small(rs) && |rs| <= MAX_BLOCKS
    ensures ReadIndex(IndexBytes(rs) + rest, rs) == Some(|IndexBytes(rs)|)
  {
    hide *;
    var d, body := IndexBytes(rs) + rest, IndexBody(rs);
    var z := Zeros(Fill(|body|));
    IndexParts(rs, rest);
    FewRecords(rs);
    VliRead(d, 1, |rs|);
    RecordsRead(d, 1 + |EncodeVli(|rs|)|, rs);
    CrcRead(body + z);
    ZerosAreZero(Fill(|body|));
    IndexIs(d, rs, Vli(|rs|, |EncodeVli(|rs|)|), |body|, z);
  }

  /** An index is accepted only if it is, byte for byte, the index of those records. */
  lemma IndexWritten(d: seq<Byte>, rs: seq<Record>)
    requires d != [] && d[0] == 0 && ReadIndex(d, rs).Some?
    ensures Small(rs) && IndexBytes(rs) <= d && ReadIndex(d, rs).value == |IndexBytes(rs)|
  {
    hide RecordBytes, EncodeVli, Crc32, LeBytes, LeValue, VliAt, Zeros, ReadRecords, Pow2;
    VliWritten(d, 1);
    var n := VliAt(d, 1).value;
    RecordsWritten(d, 1 + n.length, rs);
    var p := ReadRecords(d, 1 + n.length, rs).value;
    var q := p + Fill(p);
    assert d[0..1] == [0];
    Joined3(d, 0, [0], EncodeVli(n.value), RecordBytes(rs));
    var body := IndexBody(rs);
    assert d[..p] == body;
    assert d[p..q] == Zeros(Fill(p));
    assert d[..q] == body + Zeros(Fill(p));
    LeBytesOfValue(d[q..q + 4]);
    assert d[..q + 4] == d[..q] + d[q..q + 4];
  }

  // ---- the footer -------------------------------------------------------------------------------------

  function FooterBody(index: nat, flags: seq<Byte>): seq<Byte>
    requires index >= 4
  {
    LeBytes(index / 4 - 1, 4) + flags
  }

  function FooterBytes(index: nat, flags: seq<Byte>): seq<Byte>
    requires index >= 4
  {
    LeBytes(Crc32(FooterBody(index, flags), 0), 4) + FooterBody(index, flags) + FooterMagic()
  }

  lemma FooterRead(index: nat, flags: seq<Byte>)
    requires 4 <= index < 0x1_0000_0000 && index % 4 == 0 && |flags| == 2
    ensures |FooterBytes(index, flags)| == 12 && FooterOk(FooterBytes(index, flags), index, flags)
  {
    hide Crc32, LeBytes, LeValue, Pow2;
    WordSizes();
    CrcRead(FooterBody(index, flags));
    LeValueOfBytes(index / 4 - 1, 4);
    var crc, size := LeBytes(Crc32(FooterBody(index, flags), 0), 4), LeBytes(index / 4 - 1, 4);
    var f := FooterBytes(index, flags);
    assert f == crc + size + flags + FooterMagic();
    assert f[..4] == crc && f[4..8] == size && f[8..10] == flags && f[10..12] == FooterMagic() && f[4..10] == FooterBody(index, flags);
  }

  // ---- the file -----------------------------------------------------------------------------------------

  /** The check is named by number: 0 none, 1 CRC-32, 4 CRC-64. */
  datatype File = File(checkId: Byte, blocks: seq<Spec>, padding: nat)

  predicate FileGood(f: File) {
    && CheckSize(f.checkId).Some? && AllGood(f.blocks) && |f.blocks| <= MAX_BLOCKS
    && Small(Records(f.blocks, CheckSize(f.checkId).value))
  }

  function FlagBytes(f: File): seq<Byte> {
    [0, f.checkId]
  }

  function FileBytes(f: File): seq<Byte>
    requires FileGood(f)
  {
    var check := CheckSize(f.checkId).value;
    var index := IndexBytes(Records(f.blocks, check));
    IndexSize(Records(f.blocks, check));
    Magic() + FlagBytes(f) + LeBytes(Crc32(FlagBytes(f), 0), 4) + BlocksBytes(f.blocks, check) + index +
    FooterBytes(|index|, FlagBytes(f)) + Zeros(4 * f.padding)
  }

  lemma IndexSize(rs: seq<Record>)
    requires Small(rs) && |rs| <= MAX_BLOCKS
    ensures 4 <= |IndexBytes(rs)| < 0x1_0000_0000 && |IndexBytes(rs)| % 4 == 0
  {
    hide EncodeVli, RecordBytes, Crc32, LeBytes, Zeros, Pow2;
    SmallVlis();
    VliShort(|rs|);
    RecordsShort(rs);
  }

  lemma VliShort(v: nat)
    requires v < Pow2(63)
    ensures |EncodeVli(v)| <= 9
  {
    VliShorter(v, 9);
  }

  lemma {:induction false} VliShorter(v: nat, k: nat)
    requires k >= 1 && v < Pow2(7 * k)
    ensures |EncodeVli(v)| <= k
    decreases k
  {
    if v >= 128 {
      Groups(k);
      assert Pow2(0) == 1;
      VliShorter(v / 128, k - 1);
    }
  }

  lemma {:induction false} RecordsShort(rs: seq<Record>)
    requires Small(rs)
    ensures |RecordBytes(rs)| <= 18 * |rs|
  {
    hide EncodeVli, Pow2;
    if rs != [] {
      VliShort(rs[0].unpadded);
      VliShort(rs[0].plain);
      RecordsShort(rs[1..]);
    }
  }

  lemma EndIs(foot: seq<Byte>, pad: seq<Byte>, flags: seq<Byte>, index: nat, out: seq<Byte>)
    requires |foot| == 12 && FooterOk(foot, index, flags) && |pad| % 4 == 0 && AllZero(pad)
    ensures ReadEnd(foot + pad, flags, index, out) == Ok(out)
  {
    hide FooterOk, AllZero;
    assert (foot + pad)[..12] == foot && (foot + pad)[12..] == pad;
  }

  lemma EndIsRead(index: nat, flags: seq<Byte>, padding: nat, out: seq<Byte>)
    requires 4 <= index < 0x1_0000_0000 && index % 4 == 0 && |flags| == 2
    ensures ReadEnd(FooterBytes(index, flags) + Zeros(4 * padding), flags, index, out) == Ok(out)
  {
    hide *;
    FooterRead(index, flags);
    ZerosAreZero(4 * padding);
    EndIs(FooterBytes(index, flags), Zeros(4 * padding), flags, index, out);
  }

  lemma BodyIs(d: seq<Byte>, flags: seq<Byte>, check: nat, cap: nat, b: Blocks, index: nat, out: seq<Byte>)
    requires ReadBlocks(d, check, [], [], cap) == Ok(b) && ReadIndex(b.rest, b.records) == Some(index)
    requires ReadEnd(b.rest[index..], flags, index, b.out) == Ok(out)
    ensures ReadBody(d, flags, check, cap) == Ok(out)
  {
    hide ReadBlocks, ReadIndex, ReadEnd;
  }

  function Rest(f: File, check: nat, index: seq<Byte>): seq<Byte>
    requires |index| >= 4
  {
    index + (FooterBytes(|index|, FlagBytes(f)) + Zeros(4 * f.padding))
  }

  /** Behind the header: blocks, index, footer, padding. */
  lemma BodyIsRead(f: File, check: nat, cap: nat)
    requires CheckSize(f.checkId) == Some(check) && AllGood(f.blocks) && |f.blocks| <= MAX_BLOCKS
    requires Small(Records(f.blocks, check)) && |WholePayload(f.blocks)| <= cap
    ensures var index := IndexBytes(Records(f.blocks, check));
      && 4 <= |index|
      && ReadBody(BlocksBytes(f.blocks, check) + Rest(f, check, index), FlagBytes(f), check, cap) == Ok(WholePayload(f.blocks))
  {
    hide *;
    CheckKinds(f, check);
    var rs := Records(f.blocks, check);
    var index := IndexBytes(rs);
    IndexSize(rs);
    var foot := FooterBytes(|index|, FlagBytes(f)) + Zeros(4 * f.padding);
    IndexParts(rs, foot);
    IndexRead(rs, foot);
    EndIsRead(|index|, FlagBytes(f), f.padding, WholePayload(f.blocks));
    BlocksRead(f.blocks, check, [], [], cap, index + foot);
    assert [] + WholePayload(f.blocks) == WholePayload(f.blocks) && [] + rs == rs;
    BodyIs(BlocksBytes(f.blocks, check) + (index + foot), FlagBytes(f), check, cap, Blocks(WholePayload(f.blocks), rs, index + foot), |index|, WholePayload(f.blocks));
    RestIs(f, check, index);
  }

  lemma RestIs(f: File, check: nat, index: seq<Byte>)
    requires |index| >= 4
    ensures Rest(f, check, index) == index + (FooterBytes(|index|, FlagBytes(f)) + Zeros(4 * f.padding))
  {
  }

  lemma CheckKinds(f: File, check: nat)
    requires CheckSize(f.checkId) == Some(check)
    ensures (check == 0 || check == 4 || check == 8) && |FlagBytes(f)| == 2
  {
  }

  lemma StreamIs(flags: seq<Byte>, crc: seq<Byte>, body: seq<Byte>, check: nat, cap: nat, id: Byte)
    requires flags == [0, id] && CheckSize(id) == Some(check) && crc == LeBytes(Crc32(flags, 0), 4) && |body| >= 12
    ensures Xz(Magic() + flags + crc + body, cap) == ReadBody(body, flags, check, cap)
  {
    hide Crc32, LeBytes, LeValue, ReadBody;
    CrcRead(flags);
    var d := Magic() + flags + crc + body;
    assert d[..6] == Magic() && d[6..8] == flags && d[8..12] == crc && d[12..] == body;
    assert d[6] == flags[0] && d[7] == flags[1];
  }

  /** Every well-formed file reads as the payload of its blocks. */
  lemma FileIsRead(f: File, cap: nat)
    requires FileGood(f) && |WholePayload(f.blocks)| <= cap
    ensures Xz(FileBytes(f), cap) == Ok(WholePayload(f.blocks))
  {
    var check := CheckSize(f.checkId).value;
    hide WholePayload, Xz, ReadBody, Zeros, Small, AllGood, Records, BlocksBytes, IndexBytes, FooterBytes, Crc32, LeBytes;
    var index := IndexBytes(Records(f.blocks, check));
    var crc := LeBytes(Crc32(FlagBytes(f), 0), 4);
    BodyIsRead(f, check, cap);
    IndexSize(Records(f.blocks, check));
    FooterLength(|index|, FlagBytes(f));
    var body := BlocksBytes(f.blocks, check) + Rest(f, check, index);
    StreamIs(FlagBytes(f), crc, body, check, cap, f.checkId);
    Regrouped(Magic() + FlagBytes(f) + crc, BlocksBytes(f.blocks, check), index, FooterBytes(|index|, FlagBytes(f)), Zeros(4 * f.padding));
  }

  lemma FooterLength(index: nat, flags: seq<Byte>)
    requires index >= 4 && |flags| == 2
    ensures |FooterBytes(index, flags)| == 12
  {
    hide Crc32;
  }

  lemma Regrouped(a: seq<Byte>, b: seq<Byte>, c: seq<Byte>, d: seq<Byte>, e: seq<Byte>)
    ensures a + b + c + d + e == a + (b + (c + (d + e)))
  {
  }

  // ---- what acceptance means ------------------------------------------------------------------------------

  function TotalPlain(rs: seq<Record>): nat {
    if rs == [] then 0 else rs[0].plain + TotalPlain(rs[1..])
  }

  lemma {:induction false} TotalSnoc(rs: seq<Record>, r: Record)
    ensures TotalPlain(rs + [r]) == TotalPlain(rs) + r.plain
  {
    if rs == [] {
      assert rs + [r] == [r] && [r][1..] == [];
    } else {
      assert (rs + [r])[1..] == rs[1..] + [r];
      TotalSnoc(rs[1..], r);
    }
  }

  /** The records account for every byte of output, and there are never too many. */
  lemma {:induction false} RecordsAddUp(d: seq<Byte>, check: nat, out: seq<Byte>, records: seq<Record>, cap: nat)
    requires ReadBlocks(d, check, out, records, cap).Ok? && |out| == TotalPlain(records) && |records| <= MAX_BLOCKS
    ensures var b := ReadBlocks(d, check, out, records, cap).value;
      && |b.out| == TotalPlain(b.records) && |b.records| <= MAX_BLOCKS
      && (|out| <= cap ==> |b.out| <= cap)
    decreases |d|
  {
    if d != [] && d[0] != 0 {
      BlockAddsUp(d, check, out, cap);
      var b := ReadBlock(d, check, out, cap).value;
      TotalSnoc(records, b.record);
      hide ReadBlock, TotalPlain;
      RecordsAddUp(d[b.length..], check, b.out, records + [b.record], cap);
    }
  }

  lemma BlockAddsUp(d: seq<Byte>, check: nat, out: seq<Byte>, cap: nat)
    requires d != [] && d[0] != 0 && ReadBlock(d, check, out, cap).Ok?
    ensures var b := ReadBlock(d, check, out, cap).value;
      |b.out| == |out| + b.record.plain && (|out| <= cap ==> |b.out| <= cap)
  {
    hide BlockHeader, Chunks, CheckOf, LeValue, AllZero;
  }

  /** An accepted file holds, behind its blocks, exactly the index of those blocks: their number
      and, in order, the sizes they were found to have; and the output is as long as the index
      says. */
  lemma AcceptedIndexListsBlocks(data: seq<Byte>, cap: nat) returns (check: nat, b: Blocks)
    requires Xz(data, cap).Ok?
    ensures |data| >= 24 && ReadBlocks(data[12..], check, [], [], cap) == Ok(b)
    ensures IndexBytes(b.records) <= b.rest && Xz(data, cap).value == b.out
    ensures |b.out| == TotalPlain(b.records) <= cap && |b.records| <= MAX_BLOCKS
  {
    hide ReadBlocks, ReadIndex, IndexBytes, FooterOk, Crc32, LeValue;
    check := CheckSize(data[7] % 16).value;
    b := ReadBlocks(data[12..], check, [], [], cap).value;
    RecordsAddUp(data[12..], check, [], [], cap);
    IndexWritten(b.rest, b.records);
  }
}
