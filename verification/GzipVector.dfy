/** A known answer: the member the writer makes of the letter a, byte by byte, and what the bits
    of a header's flag byte mean. */
module GzipVectors {
  import opened Options
  import opened Bits
  import opened Words
  import opened Checksums
  import opened Gzip
  import opened GzipTheorems
  import opened GzipWriter
  import XzVector

  /** Text, header check, extra field, name, comment, from the lowest bit on. */
  lemma FlagByteIs(h: GzipHeader)
    ensures FlagByte(h) as int == BitOf(h.text) + 2 * BitOf(h.hcrc.Some?) + 4 * BitOf(h.extra.Some?)
      + 8 * BitOf(h.name.Some?) + 16 * BitOf(h.comment.Some?)
  {
    var s := FlagBits(h);
    LsbStep(s, 0);
    LsbStep(s, 1);
    LsbStep(s, 2);
    LsbStep(s, 3);
    LsbStep(s, 4);
    assert s[0..] == s && s[5..] == [] && LsbValue([]) == 0;
    hide LsbValue;
  }

  lemma LsbStep(s: BitString, k: nat)
    requires k < |s|
    ensures LsbValue(s[k..]) == BitOf(s[k]) + 2 * LsbValue(s[k + 1..])
  {
    assert s[k..][1..] == s[k + 1..];
  }

  /** The header with its fixed time, a stored block, the check and the length. */
  lemma WrittenVector()
    ensures GzipStoredBytes([0x61]) == [0x1F, 0x8B, 8, 0] + [0x00, 0xE1, 0x0B, 0x5E, 0, 3]
      + [1, 1, 0, 0xFE, 0xFF, 0x61] + [0x43, 0xBE, 0xB7, 0xE8, 1, 0, 0, 0]
  {
    hide *;
    HeaderWritten();
    BodyWritten();
    TrailerWritten();
    MemberParts([0x61]);
  }

  lemma MemberParts(data: seq<Byte>)
    ensures GzipStoredBytes(data) == HeaderBytes(WriterHeader()) + StoredBody(data) + Trailer(data)
  {
  }

  lemma HeaderWritten()
    ensures HeaderBytes(WriterHeader()) == [0x1F, 0x8B, 8, 0] + [0x00, 0xE1, 0x0B, 0x5E, 0, 3]
  {
    XzVector.LeFour([0x00, 0xE1, 0x0B, 0x5E], 0x00, 0xE1, 0x0B, 0x5E, 1577836800);
    FlagByteIs(WriterHeader());
    hide LeBytes, FlagByte;
    var h := WriterHeader();
    assert h.fixed == [0x00, 0xE1, 0x0B, 0x5E] + [0, 3];
    assert ExtraField(None) == [] && StringField(None) == [] && HcrcField(None) == [];
  }

  lemma BodyWritten()
    ensures StoredBody([0x61]) == [1, 1, 0, 0xFE, 0xFF, 0x61]
  {
    ComplementIs(1);
    assert BitXor(1, 0xFFFF) == 0xFFFE;
    TwoLe(1, 1, 0);
    TwoLe(0xFFFE, 0xFE, 0xFF);
    hide BitXor, LeBytes;
    assert StoredBytesOf([0x61], true) == [1] + [1, 0] + [0xFE, 0xFF] + [0x61];
  }

  lemma TwoLe(v: nat, a: Byte, b: Byte)
    requires v == a + 256 * b
    ensures LeBytes(v, 2) == [a, b]
  {
    assert LeBytes(v / 256, 1) == [b] + [];
  }

  lemma TrailerWritten()
    ensures Trailer([0x61]) == [0x43, 0xBE, 0xB7, 0xE8, 1, 0, 0, 0]
  {
    hide *;
    XzVector.LetterCheck();
    XzVector.LeFour([0x43, 0xBE, 0xB7, 0xE8], 0x43, 0xBE, 0xB7, 0xE8, 0xE8B7BE43);
    XzVector.LeFour([1, 0, 0, 0], 1, 0, 0, 0, 1);
    TrailerParts([0x61], 0xE8B7BE43);
  }

  lemma TrailerParts(out: seq<Byte>, check: nat)
    requires Crc32(out, 0) == check && |out| < 0x1_0000_0000
    ensures Trailer(out) == LeBytes(check, 4) + LeBytes(|out|, 4)
  {
    hide Crc32, LeBytes;
  }

  /** Those twenty-four bytes are read as the letter a, whatever follows. */
  lemma MemberVector(m: seq<Byte>, tail: seq<Byte>, cap: nat)
    requires m == [0x1F, 0x8B, 8, 0] + [0x00, 0xE1, 0x0B, 0x5E, 0, 3]
      + [1, 1, 0, 0xFE, 0xFF, 0x61] + [0x43, 0xBE, 0xB7, 0xE8, 1, 0, 0, 0]
    requires cap >= 1
    ensures Gunzip(m + tail, cap) == Ok(Member([0x61], 24))
  {
    hide GzipStoredBytes, Gunzip;
    WrittenVector();
    assert |m| == 24;
    StoredMemberRoundTrip([0x61], tail, cap);
  }
}
