/** Where the fields of a tar header lie, and what is reported of a member of any type, whoever
    wrote it. */
module TarLaws {
  import opened Words
  import opened Bits
  import opened Tar
  import opened TarTheorems

  // ---- the writer's header ------------------------------------------------------------------------

  /** Name, mode, owner, group, size and time, one behind the other from byte 0; the check sum in
      148, the type in 156, the format in 257 and the owner's name in 265. */
  lemma HeaderPlaces(f: File)
    requires Writable(f)
    ensures var h := TarHeader(f);
      && h[..|f.name|] == f.name && (forall i :: |f.name| <= i < 100 ==> h[i] == 0)
      && ParseOctal(h[100..108]) == f.mode && ParseOctal(h[108..116]) == 0 && ParseOctal(h[116..124]) == 0
      && ParseOctal(h[124..136]) == |f.contents| && ParseOctal(h[136..148]) == 1577836800
      && h[154] == 0 && h[155] == 32 && h[156] == 48 && (forall i :: 157 <= i < 257 ==> h[i] == 0)
      && h[257..265] == [117, 115, 116, 97, 114, 0, 48, 48] && h[265..269] == [114, 111, 111, 116]
  {
    NumbersFit(f);
    OctalRoundTrip(f.mode, 8);
    OctalRoundTrip(0, 8);
    OctalRoundTrip(|f.contents|, 12);
    OctalRoundTrip(1577836800, 12);
    hide TarOctal, ParseOctal, Checksum, Octal, Pow8;
    var h, front, back := TarHeader(f), HeaderFront(f), HeaderBack();
    FrontPlaces(f, front);
    BackPlaces(back);
    hide HeaderFront, HeaderBack;
    assert h == front + Octal(Tar.Checksum(f), 6) + [0, 32] + back;
    Halves(front, Octal(Tar.Checksum(f), 6), back, h);
  }

  lemma NumbersFit(f: File)
    requires Writable(f)
    ensures f.mode < Pow8(7) && |f.contents| < Pow8(11) && 0 < Pow8(7) && 1577836800 < Pow8(11)
  {
    assert Pow8(3) == 512;
    assert Pow8(6) == 512 * Pow8(3);
    assert Pow8(9) == 512 * Pow8(6);
    assert Pow8(11) == 64 * Pow8(9);
  }

  lemma FrontPlaces(f: File, front: seq<Byte>)
    requires Writable(f) && front == HeaderFront(f)
    ensures front[..|f.name|] == f.name && (forall i :: |f.name| <= i < 100 ==> front[i] == 0)
    ensures front[100..108] == TarOctal(f.mode, 8) && front[108..116] == front[116..124] == TarOctal(0, 8)
    ensures front[124..136] == TarOctal(|f.contents|, 12) && front[136..148] == TarOctal(1577836800, 12)
  {
    hide TarOctal;
  }

  lemma BackPlaces(back: seq<Byte>)
    requires back == HeaderBack()
    ensures back[0] == 48 && forall i :: 1 <= i < 101 ==> back[i] == 0
    ensures back[101..109] == [117, 115, 116, 97, 114, 0, 48, 48] && back[109..113] == [114, 111, 111, 116]
  {
  }

  lemma Halves(front: seq<Byte>, sum: seq<Byte>, back: seq<Byte>, h: seq<Byte>)
    requires |front| == 148 && |sum| == 6 && |back| == 356 && h == front + sum + [0, 32] + back
    ensures forall i :: 0 <= i < 148 ==> h[i] == front[i]
    ensures forall i, j :: 0 <= i <= j <= 148 ==> h[i..j] == front[i..j]
    ensures h[148..154] == sum && h[154] == 0 && h[155] == 32
    ensures forall i :: 156 <= i < 512 ==> h[i] == back[i - 156]
    ensures forall i, j :: 156 <= i <= j <= 512 ==> h[i..j] == back[i - 156..j - 156]
  {
  }

  /** The check sum field reads as the sum of all bytes of the header, its own taken as blanks. */
  lemma ChecksumField(f: File)
    requires Writable(f)
    ensures var h := TarHeader(f);
      Digits(h[148..156], 0) == Sum(h[..148] + [32, 32, 32, 32, 32, 32, 32, 32] + h[156..])
  {
    var h, front, back, sum := TarHeader(f), HeaderFront(f), HeaderBack(), Tar.Checksum(f);
    assert sum == Sum(front + Blanks() + back);
    var tail: seq<Byte> := [0, 32];
    DigitsOfOctal(sum, 6);
    DigitsConcat(Octal(sum, 6), tail, 0);
    assert Digits(tail, sum) == sum;
    hide HeaderFront, HeaderBack, Octal, Digits, Sum, Checksum;
    assert h[148..156] == Octal(sum, 6) + tail && h[..148] == front && h[156..] == back;
  }

  // ---- members by others ----------------------------------------------------------------------------

  /** A header in which name, mode, size and type are as given; the rest may be anything. */
  ghost predicate Declares(h: seq<Byte>, name: seq<Byte>, mode: nat, size: nat, kind: Byte) {
    && |h| == 512 && |name| <= 100 && 0 !in name && mode < Pow8(7) && size < Pow8(11)
    && h[..100] == Padded(name, 100) && h[100..108] == TarOctal(mode, 8) && h[124..136] == TarOctal(size, 12)
    && h[156] == kind
  }

  /** Types L, K, x and g are passed over with their contents; 5 and names that end in a slash are
      directories; 0 and the zero byte are files; everything else is passed over. */
  lemma MemberRead(data: seq<Byte>, at: nat, name: seq<Byte>, mode: nat, size: nat, kind: Byte)
    requires at + 512 + size <= |data| && Declares(data[at..at + 512], name, mode, size, kind)
    ensures var next := at + (512 + size + 511) / 512 * 512; var path := ReportedName(name);
      TarNext(data, at) ==
        if kind in {76, 75, 120, 103} then Skipped(next)
        else if kind == 53 || (path != [] && path[|path| - 1] == 47) then Found(Entry(path, 0, mode, true, []), next)
        else if kind in {48, 0} then Found(Entry(path, size, mode, false, data[at + 512..at + 512 + size]), next)
        else Skipped(next)
  {
    var h := data[at..at + 512];
    OctalRoundTrip(size, 12);
    OctalRoundTrip(mode, 8);
    NameRoundTrip(name);
    NotZero(data, at, mode);
    hide ParseOctal, TarOctal, Padded, EntryPath, ReportedName, Pow8;
    assert SkipZeros(data, at) == at;
  }

  lemma NotZero(data: seq<Byte>, at: nat, mode: nat)
    requires at + 512 <= |data| && data[at..at + 512][100..108] == TarOctal(mode, 8)
    ensures !ZeroBlock(data, at)
  {
    var h := data[at..at + 512];
    assert IsDigit(TarOctal(mode, 8)[0]);
    assert h[100] == h[100..108][0] && h[100] == data[at + 100];
  }

  /** A member that claims more than there is ends the walk. */
  lemma TooLongIsBad(data: seq<Byte>, at: nat, name: seq<Byte>, mode: nat, size: nat, kind: Byte)
    requires at + 512 <= |data| < at + 512 + size && Declares(data[at..at + 512], name, mode, size, kind)
    ensures TarNext(data, at) == Bad
  {
    OctalRoundTrip(size, 12);
    NotZero(data, at, mode);
    hide ParseOctal, TarOctal, Padded, EntryPath, Pow8;
    assert SkipZeros(data, at) == at;
  }
}
