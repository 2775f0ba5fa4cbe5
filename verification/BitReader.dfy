/** The DEFLATE bit reader: bytes are loaded eagerly into a small buffer, bits leave it
    from the least significant end. */
module BitReaders {
  import opened Bits

  class BitReader {
    const data: seq<Byte>
    var byte: nat       // next byte to load
    var buffer: nat     // bits loaded and not yet consumed, right-aligned
    var count: nat      // how many valid bits `buffer` holds
    var overrun: bool   // more bits were asked for than exist

    /** The bits still to be consumed. Between calls less than one whole byte is buffered,
        unless the reader ran out of input; in every case the buffered bits are the ones
        just before byte `byte` of the stream. */
    ghost predicate Valid()
      reads this
      ensures Valid() ==> byte <= |data|
    {
      && byte <= |data|
      && buffer < Pow2(count)
      && count <= 15
      && (!overrun ==> count <= 7)
      && count <= 8 * byte
      && Rest() == StreamBits(data)[BitPosition()..]
    }

    ghost function Rest(): BitString
      requires byte <= |data|
      reads this
    {
      LsbBits(buffer, count) + StreamBits(data[byte..])
    }

    /** Bits consumed so far. */
    ghost function BitPosition(): (p: nat)
      requires byte <= |data| && count <= 8 * byte
      reads this
      ensures p <= 8 * |data| && |Rest()| == 8 * |data| - p
    {
      8 * byte - count
    }

    constructor (data: seq<Byte>)
      ensures Valid() && !overrun
      ensures this.data == data && Rest() == StreamBits(data)
    {
      this.data := data;
      byte, buffer, count, overrun := 0, 0, 0, false;
      new;
      assert data[0..] == data;
      assert LsbBits(0, 0) + StreamBits(data) == StreamBits(data);
    }

    /** Loads the next byte above the bits already buffered. */
    method LoadByte()
      requires byte < |data| && buffer < Pow2(count) && count <= 15
      modifies this
      ensures byte == old(byte) + 1 && count == old(count) + 8 && overrun == old(overrun)
      ensures buffer < Pow2(count) && buffer < 0x1_0000_0000
      ensures Rest() == old(Rest())
    {
      LoadJoin(buffer, count, data, byte);
      Fits32(BitOr(buffer, Shl(data[byte], count)), count + 8);
      buffer := BitOr(buffer, Shl(data[byte], count));
      byte := byte + 1;
      count := count + 8;
    }

    /** Takes `n` buffered bits off the low end. */
    method TakeBits(n: nat) returns (value: nat)
      requires byte <= |data| && buffer < Pow2(count) && n <= count <= 8 * byte
      modifies this
      ensures byte == old(byte) && count == old(count) - n && overrun == old(overrun)
      ensures buffer < Pow2(count)
      ensures n <= |old(Rest())| && value == LsbValue(old(Rest())[..n]) && Rest() == old(Rest())[n..]
    {
      BitAndMask(buffer, n);
      LsbBitsSplit(buffer, n, count - n);
      LsbValueOfBits(Low(buffer, n), n);
      ShrBound(buffer, n, count - n);
      ghost var rest := LsbBits(Shr(buffer, n), count - n) + StreamBits(data[byte..]);
      assert Rest() == LsbBits(Low(buffer, n), n) + rest;
      value := BitAnd(buffer, Pow2(n) - 1);
      buffer := Shr(buffer, n);
      count := count - n;
      assert Rest() == rest;
    }

    /** Reads `n` bits, least significant first. When fewer remain, the flag is set, the
        value is zero and nothing is consumed. */
    method ReadBits(n: nat) returns (value: nat)
      requires Valid() && n <= 16
      modifies this
      ensures Valid()
      ensures n <= |old(Rest())| ==>
        && value == LsbValue(old(Rest())[..n])
        && Rest() == old(Rest())[n..]
        && overrun == old(overrun)
      ensures n > |old(Rest())| ==> value == 0 && overrun && Rest() == old(Rest())
    {
      ghost var s, at := Rest(), BitPosition();
      if n == 0 {
        assert s[..0] == [] && s[0..] == s;
        return 0;
      }
      while count < n
        invariant byte <= |data| && buffer < Pow2(count) && count <= 23 && count <= 8 * byte
        invariant count == old(count) || count < n + 8
        invariant !overrun ==> old(count) <= 7
        invariant BitPosition() == at && Rest() == s
        invariant overrun == old(overrun)
      {
        if byte >= |data| {
          assert data[byte..] == [];
          overrun := true;
          return 0;
        }
        LoadByte();
      }
      value := TakeBits(n);
      DropDrop(StreamBits(data), at, n);
    }

    method ReadBit() returns (bit: nat)
      requires Valid()
      modifies this
      ensures Valid()
      ensures old(Rest()) != [] ==>
        bit == BitOf(old(Rest())[0]) && Rest() == old(Rest())[1..] && overrun == old(overrun)
      ensures old(Rest()) == [] ==> bit == 0 && overrun && Rest() == []
    {
      ghost var s := Rest();
      bit := ReadBits(1);
      if s != [] {
        assert s[..1] == [s[0]] && s[..1][1..] == [];
      }
    }

    method DropPartialByte()
      requires buffer < Pow2(count)
      modifies this
      ensures count == old(count) / 8 * 8 && buffer < Pow2(count)
      ensures byte == old(byte) && overrun == old(overrun)
    {
      ShrBound(buffer, count % 8, count - count % 8);
      buffer := Shr(buffer, count % 8);
      count := count - count % 8;
    }

    /** Steps back over the whole bytes still buffered. */
    method UnreadWholeBytes(ghost whole: nat)
      requires count == 8 * whole && whole <= byte <= |data| && buffer < Pow2(count)
      modifies this
      ensures byte == old(byte) - whole && count == 0 && buffer == 0 && overrun == old(overrun)
    {
      ghost var left: nat := whole;
      while count >= 8
        invariant count == 8 * left && byte == old(byte) - whole + left && buffer < Pow2(count)
        invariant overrun == old(overrun)
      {
        ShrBound(buffer, 8, count - 8);
        byte := byte - 1;
        count := count - 8;
        left := left - 1;
        buffer := Shr(buffer, 8);
      }
    }

    /** Drops the rest of the current byte and hands whole buffered bytes back, so that
        `data[byte]` is the next byte. */
    method AlignUnread()
      requires Valid()
      modifies this
      ensures Valid() && count == 0 && overrun == old(overrun)
      ensures Rest() == old(Rest())[|old(Rest())| % 8..]
      ensures Rest() == StreamBits(data[byte..])
    {
      ghost var start := BitPosition();
      DropPartialByte();
      UnreadWholeBytes(count / 8);
      AlignedSuffix(data, start, byte);
      assert LsbBits(0, 0) + StreamBits(data[byte..]) == StreamBits(data[byte..]);
    }

    /** Moves past whole bytes once the reader is aligned. */
    method SkipBytes(n: nat)
      requires Valid() && count == 0 && byte + n <= |data|
      modifies this
      ensures Valid() && count == 0 && byte == old(byte) + n && overrun == old(overrun)
      ensures 8 * n <= |old(Rest())| && Rest() == old(Rest())[8 * n..] && Rest() == StreamBits(data[byte..])
    {
      StreamBitsSuffix(data, byte);
      StreamBitsSuffix(data, byte + n);
      hide StreamBits, Pow2;
      assert LsbBits(buffer, 0) == [];
      DropDrop(StreamBits(data), 8 * byte, 8 * n);
      byte := byte + n;
      assert Rest() == StreamBits(data[byte..]);
    }
  }

  lemma DropDrop<T>(s: seq<T>, m: nat, n: nat)
    requires m + n <= |s|
    ensures s[m..][n..] == s[m + n..]
  {
  }

  /** The loader never needs more than the 32 bits the buffer has. */
  lemma Fits32(v: nat, n: nat)
    requires v < Pow2(n) && n <= 23
    ensures v < 0x1_0000_0000
  {
    assert Pow2(8) == 256;
    assert Pow2(11) == 2 * (2 * (2 * Pow2(8)));
    assert Pow2(14) == 2 * (2 * (2 * Pow2(11)));
    assert Pow2(17) == 2 * (2 * (2 * Pow2(14)));
    assert Pow2(20) == 2 * (2 * (2 * Pow2(17)));
    assert Pow2(23) == 2 * (2 * (2 * Pow2(20)));
    Pow2Monotone(n, 23);
  }

  /** Or-ing the next byte in above the buffered bits leaves the stream the same. */
  lemma LoadJoin(buffer: nat, count: nat, data: seq<Byte>, byte: nat)
    requires byte < |data| && buffer < Pow2(count)
    ensures var joined := BitOr(buffer, Shl(data[byte], count));
      && joined < Pow2(count + 8)
      && LsbBits(joined, count + 8) + StreamBits(data[byte + 1..])
         == LsbBits(buffer, count) + StreamBits(data[byte..])
  {
    var b := data[byte];
    assert b < Pow2(8);
    BitOrDisjoint(buffer, b, count);
    LsbBitsJoin(buffer, count, b, 8);
    JoinBound(buffer, count, b, 8);
    assert data[byte..][1..] == data[byte + 1..];
    assert LsbBits(buffer, count) + (LsbBits(b, 8) + StreamBits(data[byte + 1..]))
        == (LsbBits(buffer, count) + LsbBits(b, 8)) + StreamBits(data[byte + 1..]);
  }

  /** Dropping bits up to the next byte boundary leaves the bits of whole bytes. */
  lemma AlignedSuffix(data: seq<Byte>, start: nat, byte: nat)
    requires byte <= |data| && start <= 8 * byte < start + 8
    ensures StreamBits(data[byte..]) == StreamBits(data)[8 * byte..]
    ensures var rest := StreamBits(data)[start..]; rest[|rest| % 8..] == StreamBits(data[byte..])
  {
    StreamBitsSuffix(data, byte);
    var drop := 8 * byte - start;
    var rest := StreamBits(data)[start..];
    assert |rest| == 8 * (|data| - byte) + drop;
    assert |rest| % 8 == drop;
    assert rest[drop..] == StreamBits(data)[8 * byte..];
  }
}
