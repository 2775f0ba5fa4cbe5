/** Reading gzip members into a scratch buffer, one after another. */
module GzipReader {
  import opened Options
  import opened Bits
  import opened Words
  import opened Crc
  import opened Checksums
  import opened Gzip
  import opened GzipTheorems
  import D = DeflateDecoder
  import Inflater

  datatype Outcome = Done | Failed(failure: Failure)

  /** Testing one bit of the flag byte. */
  lemma {:induction false} BitAndTests(a: nat, k: nat, n: nat)
    requires k < n
    ensures BitAnd(a, Pow2(k)) != 0 <==> LsbBits(a, n)[k]
    decreases k
  {
    if k == 0 {
      BitAndZero(a / 2);
      assert BitAnd(a, 1) == (if a % 2 == 1 then 1 else 0) + 2 * BitAnd(a / 2, 0);
    } else {
      BitAndTests(a / 2, k - 1, n - 1);
      assert BitAnd(a, Pow2(k)) == 2 * BitAnd(a / 2, Pow2(k - 1));
    }
  }

  lemma FlagTests(flags: Byte)
    ensures BitAnd(flags, 0x02) != 0 <==> FlagSet(flags, 1)
    ensures BitAnd(flags, 0x04) != 0 <==> FlagSet(flags, 2)
    ensures BitAnd(flags, 0x08) != 0 <==> FlagSet(flags, 3)
    ensures BitAnd(flags, 0x10) != 0 <==> FlagSet(flags, 4)
  {
    assert Pow2(1) == 2 && Pow2(2) == 4 && Pow2(3) == 8 && Pow2(4) == 16;
    hide BitAnd, LsbBits, Pow2;
    BitAndTests(flags, 1, 5);
    BitAndTests(flags, 2, 5);
    BitAndTests(flags, 3, 5);
    BitAndTests(flags, 4, 5);
  }

  lemma BitAndDouble(a: nat, m: nat)
    ensures BitAnd(a, 2 * m) == 2 * BitAnd(a / 2, m)
  {
    if m == 0 {
      BitAndZero(a);
      BitAndZero(a / 2);
    }
  }

  lemma ReservedTest(flags: Byte)
    ensures BitAnd(flags, 0xE0) != 0 <==> flags >= 32
  {
    var b, c, d, e, f := flags / 2, flags / 4, flags / 8, flags / 16, flags / 32;
    assert Pow2(3) == 8;
    hide BitAnd;
    BitAndDouble(flags, 0x70);
    BitAndDouble(b, 0x38);
    BitAndDouble(c, 0x1C);
    BitAndDouble(d, 0x0E);
    BitAndDouble(e, 7);
    BitAndMask(f, 3);
    LowKeeps(f, 3);
  }

  /** Past the zero byte that ends a string, or past the end of the data. */
  method SkipString(data: seq<Byte>, start: nat) returns (at: nat)
    ensures at == AfterString(data, start)
  {
    at := start;
    while at < |data| && data[at] != 0
      invariant AfterString(data, at) == AfterString(data, start)
      decreases |data| - at
    {
      at := at + 1;
    }
    at := at + 1;
  }

  method SkipHeader(data: seq<Byte>) returns (ok: bool, at: nat)
    requires |data| >= 10
    ensures match BodyStart(data)
      case Some(b) => ok && at == b
      case None => !ok
  {
    hide BitAnd, FlagSet, LeValue, AfterString;
    var flags := data[3];
    FlagTests(flags);
    ok, at := false, 10;
    if BitAnd(flags, 0x04) != 0 {
      if !(at <= |data| && |data| - at >= 2) {
        return;
      }
      var xlen := ReadLe(data, at, 2);
      if !(at + 2 <= |data| && |data| - (at + 2) >= xlen) {
        return;
      }
      at := at + 2 + xlen;
    }
    if BitAnd(flags, 0x08) != 0 {
      at := SkipString(data, at);
    }
    if BitAnd(flags, 0x10) != 0 {
      at := SkipString(data, at);
    }
    if BitAnd(flags, 0x02) != 0 {
      at := at + 2;
    }
    ok := true;
  }

  /** The trailer's two words against the output. */
  method TrailerMatches(data: seq<Byte>, at: nat, out: seq<Byte>) returns (ok: bool)
    requires at + 8 <= |data|
    ensures ok <==> data[at..at + 8] == Trailer(out)
  {
    hide LeValue, LeBytes, Crc32;
    PowersOfTwo();
    var wantCrc := ReadLe(data, at, 4);
    var wantSize := ReadLe(data, at + 4, 4);
    LeBytesOfValue(data[at..at + 4]);
    LeBytesOfValue(data[at + 4..at + 8]);
    ghost var size := |out| % 0x1_0000_0000;
    LeValueOfBytes(size, 4);
    assert data[at..at + 8] == data[at..at + 4] + data[at + 4..at + 8];
    assert Trailer(out)[..4] == LeBytes(Crc32(out, 0), 4) && Trailer(out)[4..] == LeBytes(size, 4);
    assert data[at..at + 8][..4] == data[at..at + 4] && data[at..at + 8][4..] == data[at + 4..at + 8];
    var gotCrc := Crc32Bytes(out);
    LeValueOfBytes(gotCrc, 4);
    if wantSize != |out| % 0x1_0000_0000 {
      return false;
    }
    ok := gotCrc == wantCrc;
  }

  method AfpkgGunzipMember(data: seq<Byte>, base: array<Byte>, origin: nat, size: nat)
    returns (r: Outcome, outLen: nat, consumed: nat)
    requires origin + size <= base.Length
    modifies base
    ensures match Gunzip(data, size)
      case Ok(m) => r == Done && outLen == |m.out| <= size && consumed == m.consumed
                    && base[origin..origin + outLen] == m.out
      case Err(failure) => r == Failed(failure) && outLen == 0 && consumed == 0
    ensures forall i :: 0 <= i < base.Length && (i < origin || origin + size <= i) ==> base[i] == old(base[i])
  {
    hide D.Inflate, BodyStart, Trailer, BitAnd;
    outLen, consumed := 0, 0;
    if |data| < 18 || data[0] != 0x1F || data[1] != 0x8B {
      return Failed(Invalid), 0, 0;
    }
    if data[2] != 8 {
      return Failed(Unsupported), 0, 0;
    }
    ReservedTest(data[3]);
    if BitAnd(data[3], 0xE0) != 0 {
      return Failed(Corrupt), 0, 0;
    }
    var ok, at := SkipHeader(data);
    if !ok {
      return Failed(Corrupt), 0, 0;
    }
    if size == 0 {
      return Failed(Invalid), 0, 0;
    }
    if at + 8 > |data| {
      return Failed(Corrupt), 0, 0;
    }
    var rc, produced, used := Inflater.AfpkgInflate(data[at..], base, origin, size);
    if rc.Failed? {
      return Failed(FromInflate(rc.status)), 0, 0;
    }
    if at + used + 8 > |data| {
      return Failed(Corrupt), 0, 0;
    }
    ok := TrailerMatches(data, at + used, base[origin..origin + produced]);
    if !ok {
      return Failed(Corrupt), 0, 0;
    }
    return Done, produced, at + used + 8;
  }

  lemma MembersStep(data: seq<Byte>, offset: nat, cap: nat, out: seq<Byte>)
    requires offset < |data|
    ensures |out| >= cap ==> ReadMembers(data[offset..], cap, out) == Err(TooMany)
    ensures |out| < cap ==> match Gunzip(data[offset..], cap - |out|)
      case Err(f) => ReadMembers(data[offset..], cap, out) == Err(f)
      case Ok(m) => (
        && 0 < m.consumed <= |data| - offset
        && ReadMembers(data[offset..], cap, out) == ReadMembers(data[offset + m.consumed..], cap, out + m.out))
  {
    var rest := data[offset..];
    MembersStart(rest, cap, out);
    hide Gunzip, ReadMembers;
    if |out| < cap && Gunzip(rest, cap - |out|).Ok? {
      ReadIsMember(rest, cap - |out|);
      var n := Gunzip(rest, cap - |out|).value.consumed;
      assert rest[n..] == data[offset + n..];
    }
  }

  lemma MembersStart(data: seq<Byte>, cap: nat, out: seq<Byte>)
    requires data != []
    ensures |out| >= cap ==> ReadMembers(data, cap, out) == Err(TooMany)
    ensures |out| < cap ==>
      var g := Gunzip(data, cap - |out|);
      && (g.Err? ==> ReadMembers(data, cap, out) == Err(g.failure))
      && (g.Ok? && 0 < g.value.consumed <= |data| ==>
            ReadMembers(data, cap, out) == ReadMembers(data[g.value.consumed..], cap, out + g.value.out))
  {
    hide Gunzip;
  }

  /** The member loop of `read_apk`: every member into the space behind the ones before it. */
  method ReadApkMembers(data: seq<Byte>, scratch: array<Byte>) returns (r: Outcome, total: nat)
    modifies scratch
    ensures match ReadMembers(data, scratch.Length, [])
      case Ok(out) => if out == [] then r == Failed(Corrupt) else r == Done && total == |out| <= scratch.Length && scratch[..total] == out
      case Err(failure) => r == Failed(failure)
  {
    hide Gunzip, ReadMembers;
    var offset := 0;
    total := 0;
    assert data[0..] == data && scratch[..0] == [];
    while offset < |data|
      invariant offset <= |data| && total <= scratch.Length
      invariant ReadMembers(data, scratch.Length, []) == ReadMembers(data[offset..], scratch.Length, scratch[..total])
      decreases |data| - offset
    {
      ghost var before := scratch[..total];
      MembersStep(data, offset, scratch.Length, before);
      if total >= scratch.Length {
        return Failed(TooMany), total;
      }
      var rc, outLen, consumed := AfpkgGunzipMember(data[offset..], scratch, total, scratch.Length - total);
      if rc.Failed? {
        return rc, total;
      }
      Appended(scratch[..], before, total, outLen);
      total := total + outLen;
      if consumed == 0 {
        return Failed(Corrupt), total;
      }
      offset := offset + consumed;
    }
    assert data[offset..] == [];
    NoMembers(scratch.Length, scratch[..total]);
    if total == 0 {
      return Failed(Corrupt), 0;
    }
    r := Done;
  }

  lemma NoMembers(cap: nat, out: seq<Byte>)
    ensures ReadMembers([], cap, out) == Ok(out)
  {
  }

  lemma Appended(s: seq<Byte>, before: seq<Byte>, total: nat, n: nat)
    requires total == |before| && total + n <= |s| && forall i :: 0 <= i < total ==> s[i] == before[i]
    ensures s[..total + n] == before + s[total..total + n]
  {
  }
}
