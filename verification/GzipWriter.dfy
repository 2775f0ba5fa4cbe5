/** The reference writer of gzip members: stored blocks only. What it writes is a member that
    holds the data. */
module GzipWriter {
  import opened Sequences
  import opened Options
  import opened Bits
  import opened Words
  import opened DeflateFormat
  import opened Checksums
  import opened Crc
  import opened Gzip
  import opened GzipTheorems

  const CHUNK: nat := 65535
  const FIXED_MTIME: nat := 1577836800

  /** One stored block, header padded to the byte. */
  function StoredBytesOf(chunk: seq<Byte>, final: bool): seq<Byte>
    requires |chunk| <= CHUNK
  {
    [BitOf(final)] + LeBytes(|chunk|, 2) + LeBytes(BitXor(|chunk|, 0xFFFF), 2) + chunk
  }

  /** The body for `data`: at least one block, none but the last shorter than the limit. */
  function StoredBody(data: seq<Byte>): seq<Byte>
    decreases |data|
  {
    if |data| <= CHUNK then StoredBytesOf(data, true)
    else StoredBytesOf(data[..CHUNK], false) + StoredBody(data[CHUNK..])
  }

  function WriterHeader(): GzipHeader {
    GzipHeader(false, LeBytes(FIXED_MTIME, 4) + [0, 3], None, None, None, None)
  }

  function GzipStoredBytes(data: seq<Byte>): seq<Byte> {
    HeaderBytes(WriterHeader()) + StoredBody(data) + Trailer(data)
  }

  /** The loop of the writer. */
  method GzipStored(data: seq<Byte>) returns (m: seq<Byte>)
    ensures m == GzipStoredBytes(data)
  {
    hide Trailer, HeaderBytes, StoredBytesOf, BitXor, LeBytes;
    var body: seq<Byte> := [];
    var offset := 0;
    assert data[0..] == data;
    while true
      invariant offset <= |data| && body + StoredBody(data[offset..]) == StoredBody(data)
      decreases |data| - offset
    {
      var rest := data[offset..];
      var chunk := if |rest| <= CHUNK then rest else rest[..CHUNK];
      var final := offset + |chunk| >= |data|;
      ghost var before := body;
      body := body + StoredBytesOf(chunk, final);
      assert rest[|chunk|..] == data[offset + |chunk|..];
      if !final {
        assert before + (StoredBytesOf(chunk, final) + StoredBody(rest[CHUNK..])) == body + StoredBody(rest[CHUNK..]);
      }
      offset := offset + |chunk|;
      if final {
        break;
      }
    }
    m := HeaderBytes(WriterHeader()) + body + Trailer(data);
  }

  // ---- what is written means what was given -----------------------------------------------------

  function NoPad(): (s: BitString)
    ensures |s| == 5
  {
    [false, false, false, false, false]
  }

  function StoredBlocks(data: seq<Byte>): (bs: seq<Block>)
    ensures bs != []
    decreases |data|
  {
    if |data| <= CHUNK then [StoredBlock(NoPad(), data)]
    else [StoredBlock(NoPad(), data[..CHUNK])] + StoredBlocks(data[CHUNK..])
  }

  lemma ChunkBytes(chunk: seq<Byte>, final: bool)
    requires |chunk| <= CHUNK
    ensures StoredBytesOf(chunk, final) == [BitOf(final)] + StoredBytes(chunk)
  {
    ComplementIs(|chunk|);
    Le16IsLeBytes(|chunk|);
    Le16IsLeBytes(0xFFFF - |chunk|);
    hide LeBytes, Le16, BitXor;
  }

  lemma ChunkIsBlock(chunk: seq<Byte>, final: bool)
    requires |chunk| <= CHUNK
    ensures var b := StoredBlock(NoPad(), chunk);
      ValidBlock(b) && EncodeBlock(b, final) == StreamBits(StoredBytesOf(chunk, final))
  {
    ChunkBytes(chunk, final);
    HeaderByte(final);
    hide StreamBits, StoredBytesOf, StoredBytes, LsbBits, NoPad, AllEncodable, DeflateFormat.ValidHeader, EncodeTokens, EncodeHeader;
    StreamBitsConcat([BitOf(final)], StoredBytes(chunk));
    var b, body := StoredBlock(NoPad(), chunk), StreamBits(StoredBytes(chunk));
    assert BlockBody(b) == NoPad() + body;
    Associates([final] + LsbBits(0, 2), NoPad(), body);
  }

  lemma HeaderByte(final: bool)
    ensures StreamBits([BitOf(final)]) == [final] + LsbBits(0, 2) + NoPad()
  {
    assert LsbBits(0, 3) == [false, false, false];
    assert LsbBits(0, 7) == [false, false, false, false, false, false, false];
    assert LsbBits(BitOf(final), 8) == [final] + LsbBits(0, 7);
    assert StreamBits([BitOf(final)]) == LsbBits(BitOf(final), 8) + StreamBits([]);
  }

  lemma ComplementIs(n: nat)
    requires n <= CHUNK
    ensures BitXor(n, 0xFFFF) == 0xFFFF - n
  {
    PowersOfTwo();
    XorComplement(n, 16);
  }

  lemma {:induction false} XorComplement(n: nat, k: nat)
    requires n < Pow2(k)
    ensures BitXor(n, Pow2(k) - 1) == Pow2(k) - 1 - n
    decreases k
  {
    if k > 0 {
      XorComplement(n / 2, k - 1);
    }
  }

  lemma Le16IsLeBytes(n: nat)
    requires n < 0x1_0000
    ensures Le16(n) == LeBytes(n, 2)
  {
    assert LeBytes(n / 256, 1) == [n / 256 % 256] + LeBytes(n / 256 / 256, 0);
  }

  lemma {:induction false} StoredIsStream(data: seq<Byte>, at: nat, out: seq<Byte>)
    requires at % 8 == 0
    ensures var bs := StoredBlocks(data);
      && ValidBlocks(bs) && Aligned(bs, at) && EncodeStream(bs) == StreamBits(StoredBody(data))
      && StreamMeaning(bs, out) == Some(out + data)
    decreases |data|
  {
    var bs := StoredBlocks(data);
    hide EncodeBlock, StreamBits, StoredBytesOf;
    if |data| <= CHUNK {
      ChunkIsBlock(data, true);
      EmptyStream(at, out);
      assert bs[1..] == [];
      assert bs[0] == StoredBlock(NoPad(), data);
    } else {
      var chunk, rest := data[..CHUNK], data[CHUNK..];
      ChunkIsBlock(chunk, false);
      var written := StoredBytesOf(chunk, false);
      StoredIsStream(rest, at + 8 * |written|, out + chunk);
      assert bs[1..] == StoredBlocks(rest) && bs[0] == StoredBlock(NoPad(), chunk);
      StreamBitsConcat(written, StoredBody(rest));
      assert out + chunk + rest == out + data;
      assert |StreamBits(written)| == 8 * |written|;
    }
  }

  lemma EmptyStream(at: nat, out: seq<Byte>)
    ensures ValidBlocks([]) && Aligned([], at) && EncodeStream([]) == [] && StreamMeaning([], out) == Some(out)
  {
  }

  lemma {:induction false} BlockCount(data: seq<Byte>, n: nat)
    requires n > 0 && |data| <= CHUNK * n
    ensures |StoredBlocks(data)| <= n
    decreases |data|
  {
    if |data| > CHUNK {
      BlockCount(data[CHUNK..], n - 1);
    }
  }

  /** The writer's output is a member that holds the data, as long as the data does not need
      more blocks than a reader is prepared to follow (some 64 GiB). */
  lemma WritesAMember(data: seq<Byte>)
    requires |data| <= CHUNK * (MAX_NONFINAL_BLOCKS + 1)
    ensures IsMember(GzipStoredBytes(data), data)
  {
    hide EncodeStream, StreamBits, StreamMeaning, StoredBody, Trailer, HeaderBytes, ValidBlocks, Aligned;
    var bs := StoredBlocks(data);
    BlockCount(data, MAX_NONFINAL_BLOCKS + 1);
    StoredIsStream(data, 0, []);
    assert [] + data == data;
    assert MemberIs(GzipStoredBytes(data), WriterHeader(), StoredBody(data), bs, data);
  }

  /** Round trip: whatever follows, and whenever there is room. */
  lemma StoredMemberRoundTrip(data: seq<Byte>, tail: seq<Byte>, cap: nat)
    requires |data| <= CHUNK * (MAX_NONFINAL_BLOCKS + 1) && |data| <= cap && cap > 0
    ensures Gunzip(GzipStoredBytes(data) + tail, cap) == Ok(Member(data, |GzipStoredBytes(data)|))
  {
    WritesAMember(data);
    hide *;
    MemberRead(GzipStoredBytes(data), data, tail, cap);
  }
}
