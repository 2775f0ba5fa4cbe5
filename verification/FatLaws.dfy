/** What the bytes of a FAT directory are, field by field, and what short names and their check
    sums come to. */
module FatLaws {
  import opened Bits
  import opened Words
  import opened FatNames
  import opened FatDirectories
  import opened FatDisks

  // ---- entries ------------------------------------------------------------------------------------

  /** Two bytes, the low one first. */
  function Two(e: Slot, at: nat): nat
    requires at < 31
  {
    e[at] as int + 256 * (e[at + 1] as int)
  }

  lemma TwoBytes(v: nat)
    requires v < 0x1_0000
    ensures LeBytes(v, 2)[0] == v % 256 && LeBytes(v, 2)[1] == v / 256
  {
    assert LeBytes(v / 256, 1) == [v / 256 % 256] + LeBytes(v / 256 / 256, 0);
  }

  lemma FourBytes(v: nat)
    requires v < 0x1_0000_0000
    ensures var b := LeBytes(v, 4); b[0] as int + 256 * (b[1] as int) + 0x1_0000 * (b[2] as int + 256 * (b[3] as int)) == v
  {
    var w := v / 256 / 256;
    assert LeBytes(v, 4) == [v % 256] + LeBytes(v / 256, 3) && LeBytes(v / 256, 3) == [v / 256 % 256] + LeBytes(w, 2);
    TwoBytes(w);
    hide LeBytes;
  }

  /** An entry: the name in bytes 0 to 10, the attributes in byte 11, the upper half of the first
      cluster in 20 and 21 and the lower in 26 and 27, the size in the last four. */
  lemma EntryFields(r: Rec)
    requires ValidRec(r)
    ensures var e := SlotOf(r);
      && e[..11] == ShortOf(r) && e[11] == (if r.Named? && !r.dir then 0x20 else 0x10)
      && Two(e, 26) + 0x1_0000 * Two(e, 20) == r.first
      && Two(e, 28) + 0x1_0000 * Two(e, 30) == (if r.Named? then r.size else 0)
      && (forall i :: 12 <= i < 20 || 22 <= i < 26 ==> e[i] == 0)
  {
    TwoBytes(r.first / 0x1_0000);
    TwoBytes(r.first % 0x1_0000);
    FourBytes(SizeOf(r));
    hide LeBytes, ShortOf;
    Laid(ShortOf(r), AttrOf(r), LeBytes(r.first / 0x1_0000, 2), LeBytes(r.first % 0x1_0000, 2), LeBytes(SizeOf(r), 4), SlotOf(r));
  }

  lemma Laid(short: seq<Byte>, attr: Byte, hi: seq<Byte>, lo: seq<Byte>, size: seq<Byte>, e: Slot)
    requires |short| == 11 && |hi| == 2 && |lo| == 2 && |size| == 4
    requires e == short + [attr] + Zeros(8) + hi + Zeros(4) + lo + size
    ensures e[..11] == short && e[11] == attr && e[20] == hi[0] && e[21] == hi[1] && e[26] == lo[0] && e[27] == lo[1]
    ensures e[28] == size[0] && e[29] == size[1] && e[30] == size[2] && e[31] == size[3]
    ensures forall i :: 12 <= i < 20 || 22 <= i < 26 ==> e[i] == 0
  {
  }

  /** The place of unit `k` in a long-name entry. */
  function Place(k: nat): (p: nat)
    requires k < 13
    ensures p < 31
  {
    if k < 5 then 1 + 2 * k else if k < 11 then 4 + 2 * k else 6 + 2 * k
  }

  /** A long name of thirteen characters an entry, last part first: the number of the part in
      byte 0, with 64 added to the first one written; 15 in byte 11; the check sum of the short
      name in byte 13; a zero behind the name and 65535 behind that. */
  lemma LongEntryFields(name: seq<Byte>, sum: Byte, j: nat, k: nat)
    requires Fragments(name) < 64 && j < Fragments(name) && k < 13
    ensures var e, i := LfnEntries(name, sum)[j], Fragments(name) - 1 - j; var c := 13 * i + k;
      && e[0] == i + 1 + (if j == 0 then 64 else 0)
      && e[11] == 15 && e[12] == 0 && e[13] == sum && e[26] == e[27] == 0
      && Two(e, Place(k)) == if c < |name| then name[c] else if c == |name| then 0 else 65535
    ensures Fragments(name) == |name| / 13 + 1
  {
    hide *;
    FragmentsAre(name);
    var n := Fragments(name);
    var i := n - 1 - j;
    LongEntryAt(name, sum, n, j);
    LfnEntriesAre(name, sum);
    OrdinalIs(i, n);
    var ordinal, u := Ordinal(i, n), Piece(name, i);
    PieceIs(name, i, k);
    UnitsOfEntry(ordinal, sum, u, k);
    UnitIsTwo(LfnEntry(ordinal, sum, u), k);
    FixedFields(ordinal, sum, u);
  }

  lemma FragmentsAre(name: seq<Byte>)
    ensures Fragments(name) == |name| / 13 + 1
  {
  }

  lemma OrdinalIs(i: nat, n: nat)
    requires i < n < 64
    ensures Ordinal(i, n) == if i + 1 == n then i + 1 + 64 else i + 1
  {
  }

  lemma LfnEntriesAre(name: seq<Byte>, sum: Byte)
    requires Fragments(name) < 64
    ensures LfnEntries(name, sum) == LfnDown(name, sum, Fragments(name))
  {
  }

  lemma PieceIs(name: seq<Byte>, i: nat, k: nat)
    requires k < 13
    ensures |Piece(name, i)| == 13
    ensures var c := 13 * i + k; Piece(name, i)[k] == if c < |name| then name[c] else if c == |name| then 0 else 65535
  {
  }

  lemma UnitIsTwo(e: Slot, k: nat)
    requires k < 13
    ensures UnitAt(e, k) == Two(e, Place(k))
  {
  }

  lemma FixedFields(ordinal: Byte, sum: Byte, u: seq<Unit>)
    requires |u| == 13
    ensures var e := LfnEntry(ordinal, sum, u);
      e[0] == ordinal && e[11] == 15 && e[12] == 0 && e[13] == sum && e[26] == e[27] == 0
  {
    hide UnitBytes;
  }

  lemma {:induction false} LongEntryAt(name: seq<Byte>, sum: Byte, n: nat, j: nat)
    requires n <= Fragments(name) < 64 && j < n
    ensures LfnDown(name, sum, n)[j] == LfnEntry(Ordinal(n - 1 - j, Fragments(name)), sum, Piece(name, n - 1 - j))
    decreases n
  {
    hide LfnEntry, Piece, Ordinal, Fragments, LfnDown;
    LfnDownStep(name, sum, n);
    if j > 0 {
      LongEntryAt(name, sum, n - 1, j - 1);
      assert LfnDown(name, sum, n)[j] == LfnDown(name, sum, n)[1..][j - 1];
    }
  }

  // ---- short names --------------------------------------------------------------------------------

  /** Capital letters, digits and ! # $ % & ' ( ) - @ ^ _ ` { } ~ may be in a short name. */
  lemma LegalCharsAre(b: Byte)
    ensures LegalChar(b) <==>
      65 <= b <= 90 || 48 <= b <= 57 || b in {33, 35, 36, 37, 38, 39, 40, 41, 45, 64, 94, 95, 96, 123, 125, 126}
  {
  }

  /** No dot, and nothing that may not be in a short name once it is in upper case. */
  predicate Plain(s: seq<Byte>) {
    forall i :: 0 <= i < |s| ==> s[i] != 46 && LegalChar(if 97 <= s[i] <= 122 then s[i] - 32 else s[i])
  }

  /** Character `i` of a field of a short name: upper case, padded with blanks. */
  function Padded(s: seq<Byte>, i: nat): Byte {
    if i >= |s| then 32 else if 97 <= s[i] <= 122 then s[i] - 32 else s[i]
  }

  /** A file name in two plain parts: the first eight characters of the one and the first three
      of the other, in upper case. */
  lemma ShortNameOfFile(base: seq<Byte>, ext: seq<Byte>)
    requires Plain(base) && Plain(ext) && base != []
    ensures var s := ShortName(base + [46] + ext, false);
      && (forall i :: 0 <= i < 8 ==> s[i] == Padded(base, i))
      && (forall i :: 0 <= i < 3 ==> s[8 + i] == Padded(ext, i))
  {
    hide *;
    var b, x := Spaced(Take(Upper(base), 8), 8), Spaced(Take(Upper(ext), 3), 3);
    TwoParts(base, ext, Upper(base + [46] + ext));
    PlainIsLegal(base);
    PlainIsLegal(ext);
    ShortNameJoins(base, ext, base + [46] + ext);
    FieldIs(base, 8);
    FieldIs(ext, 3);
  }

  lemma TwoParts(base: seq<Byte>, ext: seq<Byte>, upper: seq<Byte>)
    requires Plain(ext) && upper == Upper(base + [46] + ext)
    ensures LastDot(upper) == |base| < |upper|
    ensures upper[..|base|] == Upper(base) && upper[|base| + 1..] == Upper(ext)
  {
    hide LegalChar, LastDot;
    forall i | |base| < i < |upper|
      ensures upper[i] != 46
    {
      var j := i - |base| - 1;
      assert (base + [46] + ext)[i] == ext[j] && ext[j] != 46;
      assert upper[i] == UpperChar(ext[j]);
    }
    hide Plain, UpperChar;
    LastDotIs(upper, |base|);
  }

  lemma ShortNameJoins(base: seq<Byte>, ext: seq<Byte>, name: seq<Byte>)
    requires base != [] && LastDot(Upper(name)) == |base| < |Upper(name)|
    requires Upper(name)[..|base|] == Upper(base) && Upper(name)[|base| + 1..] == Upper(ext)
    requires Legal(Upper(base)) == Upper(base) && Legal(Upper(ext)) == Upper(ext)
    ensures ShortName(name, false) == Spaced(Take(Upper(base), 8), 8) + Spaced(Take(Upper(ext), 3), 3)
  {
    hide Legal, LastDot, Spaced, UpperChar;
  }

  lemma FieldIs(s: seq<Byte>, n: nat)
    ensures forall i :: 0 <= i < n ==> Spaced(Take(Upper(s), n), n)[i] == Padded(s, i)
  {
  }

  lemma PlainIsLegal(s: seq<Byte>)
    requires Plain(s)
    ensures Legal(Upper(s)) == Upper(s)
  {
  }

  lemma {:induction false} LastDotIs(s: seq<Byte>, k: nat)
    requires k < |s| && s[k] == 46 && forall i :: k < i < |s| ==> s[i] != 46
    ensures LastDot(s) == k
  {
    if k < |s| - 1 {
      LastDotIs(s[..|s| - 1], k);
    }
  }

  /** Eight turns by one bit leave a check sum as it was. */
  lemma TurnsRound(sum: Byte)
    ensures Checksum([0, 0, 0, 0, 0, 0, 0, 0], sum) == sum
  {
    hide *;
    var z: seq<Byte> := [0, 0, 0, 0];
    FourTurns(z, sum);
    FourTurns(z, Checksum(z, sum));
    SplitSum(z, z, sum);
    assert z + z == [0, 0, 0, 0, 0, 0, 0, 0];
    Swapped(sum, sum / 16, sum % 16);
  }

  lemma Swapped(x: nat, q: nat, r: nat)
    requires q < 16 && r < 16 && x == 16 * q + r
    ensures (q + 16 * r) / 16 + 16 * ((q + 16 * r) % 16) == x
  {
  }

  lemma {:induction false} SplitSum(s: seq<Byte>, t: seq<Byte>, sum: Byte)
    ensures Checksum(s + t, sum) == Checksum(t, Checksum(s, sum))
  {
    if s == [] {
      assert s + t == t;
    } else {
      assert (s + t)[1..] == s[1..] + t;
      SplitSum(s[1..], t, ChecksumStep(sum, s[0]));
    }
  }

  lemma TwoTurns(sum: Byte)
    ensures ChecksumStep(ChecksumStep(sum, 0), 0) == sum / 4 + 64 * (sum % 4)
  {
    var low, q := sum % 2, sum / 2;
    var a: Byte := 128 * low + q;
    assert ChecksumStep(sum, 0) == a;
    var next, r := q % 2, q / 2;
    assert a % 2 == next && a / 2 == 64 * low + r;
    assert ChecksumStep(a, 0) == 128 * next + 64 * low + r;
  }

  lemma Halves(x: nat, q: nat, r: nat, t: nat, y: nat)
    requires r < 4 && t < 4 && x == 16 * q + 4 * r + t && y == x / 4 + 64 * (x % 4)
    ensures y / 4 + 64 * (y % 4) == q + 16 * (4 * r + t)
  {
    assert x / 4 == 4 * q + r && x % 4 == t;
    assert y / 4 == q + 16 * t && y % 4 == r;
  }

  /** Four turns swap the halves of a byte. */
  lemma FourTurns(z: seq<Byte>, sum: Byte)
    requires z == [0, 0, 0, 0]
    ensures Checksum(z, sum) == sum / 16 + 16 * (sum % 16)
  {
    hide *;
    var a := ChecksumStep(sum, 0);
    var b := ChecksumStep(a, 0);
    var c := ChecksumStep(b, 0);
    var d := ChecksumStep(c, 0);
    assert z[0..] == z && z[4..] == [];
    NothingSummed(d);
    SumStep(z, 0, sum, 0, a);
    SumStep(z, 1, a, 0, b);
    SumStep(z, 2, b, 0, c);
    SumStep(z, 3, c, 0, d);
    TwoTurns(sum);
    TwoTurns(b);
    Sixteenths(sum);
    Halves(sum, sum / 16, sum % 16 / 4, sum % 4, b);
  }

  lemma Sixteenths(x: nat)
    ensures x == 16 * (x / 16) + 4 * (x % 16 / 4) + x % 4 && x % 16 == 4 * (x % 16 / 4) + x % 4
  {
  }

  lemma NothingSummed(sum: Byte)
    ensures Checksum([], sum) == sum
  {
  }

  lemma ReadmeSteps()
    ensures ChecksumStep(0, 82) == 82 && ChecksumStep(82, 69) == 110 && ChecksumStep(110, 65) == 120
    ensures ChecksumStep(120, 68) == 128 && ChecksumStep(128, 77) == 141 && ChecksumStep(141, 69) == 11
    ensures ChecksumStep(11, 32) == 165 && ChecksumStep(165, 32) == 242 && ChecksumStep(242, 84) == 205
    ensures ChecksumStep(205, 88) == 62 && ChecksumStep(62, 84) == 115
  {
  }

  /** The check sum of README.TXT is 0x73. */
  lemma ChecksumValue(s: seq<Byte>)
    requires s == [82, 69, 65, 68, 77, 69, 32, 32, 84, 88, 84]
    ensures Checksum(s, 0) == 0x73
  {
    hide *;
    assert s[0..] == s && s[11..] == [];
    NothingSummed(115);
    ReadmeSteps();
    SumStep(s, 0, 0, 82, 82);
    SumStep(s, 1, 82, 69, 110);
    SumStep(s, 2, 110, 65, 120);
    SumStep(s, 3, 120, 68, 128);
    SumStep(s, 4, 128, 77, 141);
    SumStep(s, 5, 141, 69, 11);
    SumStep(s, 6, 11, 32, 165);
    SumStep(s, 7, 165, 32, 242);
    SumStep(s, 8, 242, 84, 205);
    SumStep(s, 9, 205, 88, 62);
    SumStep(s, 10, 62, 84, 115);
  }

  lemma SumStep(s: seq<Byte>, k: nat, sum: Byte, b: Byte, r: Byte)
    requires k < |s| && s[k] == b && r == ChecksumStep(sum, b)
    ensures Checksum(s[k..], sum) == Checksum(s[k + 1..], r)
  {
    assert s[k..][1..] == s[k + 1..];
  }

  // ---- chains ---------------------------------------------------------------------------------------

  /** In a chain every table entry but the last is the next cluster, 2 at least, and the last is
      one of the eight values that end a chain. */
  lemma ChainEntries(d: Disk, ch: seq<nat>, i: nat)
    requires Formed(d) && IsChain(d, ch) && i < |ch|
    ensures 2 <= ch[i] < |d.fat|
    ensures if i + 1 < |ch| then d.fat[ch[i]] == ch[i + 1] < 0x0FFF_FFF8 else 0x0FFF_FFF8 <= d.fat[ch[i]] <= 0x0FFF_FFFF
  {
  }
}
