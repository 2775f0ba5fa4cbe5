/** FAT names: the 8.3 short name, its checksum, and the long name in reversed fragments of
    thirteen characters ("FAT Long Directory Entries" in the Microsoft FAT32 specification). */
module FatNames {
  import opened Bits
  import opened Words

  const NAME_MAX: nat := 256

  /** A directory is a sequence of entries of 32 bytes. */
  type Slot = s: seq<Byte> | |s| == 32 witness seq(32, i => 0)

  const FRAGMENT: nat := 13

  // ---- characters -----------------------------------------------------------------------------

  function UpperChar(b: Byte): Byte {
    if 97 <= b <= 122 then b - 32 else b
  }

  function Upper(s: seq<Byte>): (r: seq<Byte>)
    ensures |r| == |s| && forall i :: 0 <= i < |s| ==> r[i] == UpperChar(s[i])
  {
    seq(|s|, i requires 0 <= i < |s| => UpperChar(s[i]))
  }

  predicate Ascii(s: seq<Byte>) {
    forall i :: 0 <= i < |s| ==> 0 < s[i] < 128
  }

  /** Letters, digits and the punctuation an 8.3 name may contain. */
  predicate LegalChar(b: Byte) {
    || 65 <= b <= 90 || 48 <= b <= 57 || b == 33 || 35 <= b <= 41 || b == 45 || b == 64
    || 94 <= b <= 96 || b == 123 || b == 125 || b == 126
  }

  function Legal(s: seq<Byte>): (r: seq<Byte>)
    ensures forall i :: 0 <= i < |r| ==> LegalChar(r[i])
    ensures (forall i :: 0 <= i < |s| ==> LegalChar(s[i])) ==> r == s
  {
    if s == [] then [] else if LegalChar(s[0]) then [s[0]] + Legal(s[1..]) else Legal(s[1..])
  }

  function Take(s: seq<Byte>, n: nat): (r: seq<Byte>)
    ensures r <= s && |r| <= n && (|s| <= n ==> r == s)
  {
    if |s| <= n then s else s[..n]
  }

  function Spaced(s: seq<Byte>, n: nat): (r: seq<Byte>)
    requires |s| <= n
    ensures |r| == n
  {
    s + seq(n - |s|, i => 32)
  }

  /** The place of the last dot, or |s|. */
  function LastDot(s: seq<Byte>): (k: nat)
    ensures k <= |s|
    ensures k < |s| ==> s[k] == 46
  {
    if s == [] then 0
    else if s[|s| - 1] == 46 then |s| - 1
    else
      var k := LastDot(s[..|s| - 1]);
      if k == |s| - 1 then |s| else k
  }

  // ---- the short name -------------------------------------------------------------------------

  function FileBase(): seq<Byte> {
    [70, 73, 76, 69]
  }

  function ShortName(name: seq<Byte>, dir: bool): (s: seq<Byte>)
    ensures |s| == 11 && LegalChar(s[0])
  {
    var upper := Upper(name);
    var k := if dir then |upper| else LastDot(upper);
    var base := Take(Legal(upper[..k]), 8);
    var ext := if k < |upper| then Take(Legal(upper[k + 1..]), 3) else [];
    Spaced(if base == [] then FileBase() else base, 8) + Spaced(ext, 3)
  }

  function ChecksumStep(sum: Byte, b: Byte): Byte {
    (128 * (sum % 2) + sum / 2 + b) % 256
  }

  function Checksum(s: seq<Byte>, sum: Byte): Byte {
    if s == [] then sum else Checksum(s[1..], ChecksumStep(sum, s[0]))
  }

  // ---- fragments ------------------------------------------------------------------------------

  type Unit = u: int | 0 <= u < 0x1_0000

  /** How many fragments a name takes, its terminator included. */
  function Fragments(name: seq<Byte>): (n: nat)
    ensures 13 * (n - 1) < |name| + 1 <= 13 * n && n >= 1
  {
    (|name| + 13) / 13
  }

  /** The `k`th unit: the name, a zero, and padding. */
  function UnitOf(name: seq<Byte>, k: nat): Unit {
    if k < |name| then name[k] else if k == |name| then 0 else 0xFFFF
  }

  function UnitBytes(u: seq<Unit>): (s: seq<Byte>)
    ensures |s| == 2 * |u|
    ensures forall k :: 0 <= k < |u| ==> s[2 * k] == u[k] % 256 && s[2 * k + 1] == u[k] / 256
  {
    if u == [] then [] else [u[0] % 256, u[0] / 256] + UnitBytes(u[1..])
  }

  function Piece(name: seq<Byte>, i: nat): (u: seq<Unit>)
    ensures |u| == FRAGMENT && forall k :: 0 <= k < FRAGMENT ==> u[k] == UnitOf(name, 13 * i + k)
  {
    UnitsFrom(name, 13 * i, FRAGMENT)
  }

  function UnitsFrom(name: seq<Byte>, at: nat, n: nat): (u: seq<Unit>)
    ensures |u| == n && forall k :: 0 <= k < n ==> u[k] == UnitOf(name, at + k)
    decreases n
  {
    if n == 0 then [] else [UnitOf(name, at)] + UnitsFrom(name, at + 1, n - 1)
  }

  /** A long-name entry: thirteen units in three runs. */
  function LfnEntry(ordinal: Byte, sum: Byte, u: seq<Unit>): (e: Slot)
    requires |u| == FRAGMENT
  {
    [ordinal] + UnitBytes(u[..5]) + [0x0F, 0, sum] + UnitBytes(u[5..11]) + [0, 0] + UnitBytes(u[11..])
  }

  /** The last fragment of the name carries a flag. */
  function Ordinal(i: nat, count: nat): Byte
    requires i < count < 64
  {
    if i + 1 == count then i + 1 + 64 else i + 1
  }

  /** Fragments `i - 1` down to 0. */
  function LfnDown(name: seq<Byte>, sum: Byte, i: nat): (s: seq<Slot>)
    requires i <= Fragments(name) < 64
    ensures |s| == i
  {
    if i == 0 then []
    else [LfnEntry(Ordinal(i - 1, Fragments(name)), sum, Piece(name, i - 1))] + LfnDown(name, sum, i - 1)
  }

  /** The entries that precede the entry proper, highest fragment first. */
  function LfnEntries(name: seq<Byte>, sum: Byte): (s: seq<Slot>)
    requires Fragments(name) < 64
    ensures |s| == Fragments(name)
  {
    LfnDown(name, sum, Fragments(name))
  }

  // ---- reading them back ------------------------------------------------------------------------

  /** What has been collected of a long name. */
  datatype Lfn = Lfn(have: bool, text: seq<Byte>, sum: Byte)

  function UnitPlace(k: nat): (p: nat)
    requires k < FRAGMENT
    ensures p <= 30
  {
    if k < 5 then 1 + 2 * k else if k < 11 then 14 + 2 * (k - 5) else 28 + 2 * (k - 11)
  }

  function UnitAt(e: Slot, k: nat): Unit
    requires k < FRAGMENT
  {
    e[UnitPlace(k)] as int + 256 * (e[UnitPlace(k) + 1] as int)
  }

  /** The characters from unit `k` on, up to a zero or padding; anything but ASCII becomes a
      question mark. */
  function FragmentFrom(e: Slot, k: nat): (s: seq<Byte>)
    requires k <= FRAGMENT
    ensures |s| <= FRAGMENT - k && Ascii(s)
    decreases FRAGMENT - k
  {
    if k == FRAGMENT || UnitAt(e, k) == 0 || UnitAt(e, k) == 0xFFFF then []
    else [if UnitAt(e, k) < 128 then UnitAt(e, k) else 63] + FragmentFrom(e, k + 1)
  }

  /** One long-name entry: its fragment goes in front when there is room for it. */
  function LfnStep(l: Lfn, e: Slot): (r: Lfn)
    ensures Ascii(l.text) && |l.text| + 1 < NAME_MAX ==> Ascii(r.text) && |r.text| + 1 < NAME_MAX
  {
    var ordinal := e[0] % 32;
    if ordinal == 0 || ordinal > 20 then l.(have := false, text := [])
    else
      var fragment := FragmentFrom(e, 0);
      if |fragment| + |l.text| + 1 < NAME_MAX then Lfn(true, fragment + l.text, e[13]) else l
  }

  function LfnSteps(l: Lfn, s: seq<Slot>): (r: Lfn)
    decreases |s|
  {
    if s == [] then l else LfnSteps(LfnStep(l, s[0]), s[1..])
  }

  // ---- round trip -----------------------------------------------------------------------------

  lemma UnitsOfEntry(ordinal: Byte, sum: Byte, u: seq<Unit>, k: nat)
    requires |u| == FRAGMENT && k < FRAGMENT
    ensures UnitAt(LfnEntry(ordinal, sum, u), k) == u[k]
  {
    var e := LfnEntry(ordinal, sum, u);
    if k < 5 {
      assert u[..5][k] == u[k];
      assert e[1 + 2 * k] == UnitBytes(u[..5])[2 * k] && e[2 + 2 * k] == UnitBytes(u[..5])[2 * k + 1];
    } else if k < 11 {
      assert u[5..11][k - 5] == u[k];
      assert e[14 + 2 * (k - 5)] == UnitBytes(u[5..11])[2 * (k - 5)] && e[15 + 2 * (k - 5)] == UnitBytes(u[5..11])[2 * (k - 5) + 1];
    } else {
      assert u[11..][k - 11] == u[k];
      assert e[28 + 2 * (k - 11)] == UnitBytes(u[11..])[2 * (k - 11)] && e[29 + 2 * (k - 11)] == UnitBytes(u[11..])[2 * (k - 11) + 1];
    }
  }

  /** The part of the name that fragment `i` holds, from its `k`th character on. */
  function Part(name: seq<Byte>, i: nat, k: nat): (s: seq<Byte>)
    requires k <= FRAGMENT
  {
    var from := 13 * i + k;
    var to := 13 * i + 13;
    if from >= |name| then [] else if to >= |name| then name[from..] else name[from..to]
  }

  lemma PartStep(name: seq<Byte>, i: nat, k: nat)
    requires k < FRAGMENT
    ensures Part(name, i, k) == if 13 * i + k >= |name| then [] else [name[13 * i + k]] + Part(name, i, k + 1)
    ensures Part(name, i, FRAGMENT) == []
  {
  }

  lemma {:induction false} FragmentOfPiece(name: seq<Byte>, ordinal: Byte, sum: Byte, i: nat, k: nat)
    requires Ascii(name) && k <= FRAGMENT
    ensures FragmentFrom(LfnEntry(ordinal, sum, Piece(name, i)), k) == Part(name, i, k)
    decreases FRAGMENT - k
  {
    hide LfnEntry, Piece, UnitAt, Part;
    if k < FRAGMENT {
      UnitsOfEntry(ordinal, sum, Piece(name, i), k);
      PartStep(name, i, k);
      FragmentOfPiece(name, ordinal, sum, i, k + 1);
    } else {
      PartStep(name, i, 0);
    }
  }

  lemma EntryHead(ordinal: Byte, sum: Byte, u: seq<Unit>)
    requires |u| == FRAGMENT
    ensures var e := LfnEntry(ordinal, sum, u); e[0] == ordinal && e[11] == 0x0F && e[13] == sum
  {
  }

  /** The tail of the name that fragments `i` and up hold. */
  function Tail(name: seq<Byte>, i: nat): seq<Byte> {
    if 13 * i >= |name| then [] else name[13 * i..]
  }

  lemma OrdinalLow(i: nat, count: nat)
    requires i < count <= 20
    ensures Ordinal(i, count) % 32 == i + 1
  {
  }

  lemma FewFragments(name: seq<Byte>)
    requires |name| + 1 < NAME_MAX
    ensures Fragments(name) <= 20
  {
  }

  lemma OneFragment(name: seq<Byte>, sum: Byte, i: nat, l: Lfn)
    requires Ascii(name) && |name| + 1 < NAME_MAX && i < Fragments(name) <= 20
    requires l.text == Tail(name, i + 1)
    ensures LfnStep(l, LfnEntry(Ordinal(i, Fragments(name)), sum, Piece(name, i))) == Lfn(true, Tail(name, i), sum)
  {
    var ordinal := Ordinal(i, Fragments(name));
    OrdinalLow(i, Fragments(name));
    EntryHead(ordinal, sum, Piece(name, i));
    FragmentOfPiece(name, ordinal, sum, i, 0);
    PartsJoin(name, i);
    hide LfnEntry, Piece, FragmentFrom, Part, Tail, Fragments, Ordinal;
  }

  lemma PartsJoin(name: seq<Byte>, i: nat)
    ensures Part(name, i, 0) + Tail(name, i + 1) == Tail(name, i) && |Tail(name, i)| <= |name|
  {
  }

  lemma LfnDownStep(name: seq<Byte>, sum: Byte, i: nat)
    requires 0 < i <= Fragments(name) < 64
    ensures var s := LfnDown(name, sum, i);
      && s != [] && s[0] == LfnEntry(Ordinal(i - 1, Fragments(name)), sum, Piece(name, i - 1))
      && s[1..] == LfnDown(name, sum, i - 1)
  {
    hide LfnEntry, Piece, Ordinal, Fragments;
  }

  lemma WholeTail(name: seq<Byte>)
    ensures Tail(name, 0) == name
  {
  }

  lemma {:induction false} FragmentsRead(name: seq<Byte>, sum: Byte, i: nat, l: Lfn)
    requires Ascii(name) && |name| + 1 < NAME_MAX && i <= Fragments(name) <= 20
    requires l.text == Tail(name, i)
    ensures LfnSteps(l, LfnDown(name, sum, i)) == if i > 0 then Lfn(true, name, sum) else l
    decreases i
  {
    hide LfnStep, LfnEntry, Piece, LfnDown, Tail, Ordinal, Fragments;
    if i > 0 {
      LfnDownStep(name, sum, i);
      OneFragment(name, sum, i - 1, l);
      WholeTail(name);
      FragmentsRead(name, sum, i - 1, Lfn(true, Tail(name, i - 1), sum));
    } else {
      assert LfnDown(name, sum, 0) == [];
    }
  }

  lemma {:induction false} TextFits(l: Lfn, s: seq<Slot>)
    requires |l.text| + 1 < NAME_MAX && Ascii(l.text)
    ensures |LfnSteps(l, s).text| + 1 < NAME_MAX
    decreases |s|
  {
    if s != [] {
      TextFits(LfnStep(l, s[0]), s[1..]);
    }
  }

  /** Exactly the names of up to 254 characters are reassembled. */
  lemma LongNameRoundTrip(name: seq<Byte>, sum: Byte, l: Lfn)
    requires Ascii(name) && Fragments(name) < 64 && l.text == []
    ensures |name| <= 254 ==> LfnSteps(l, LfnEntries(name, sum)) == Lfn(true, name, sum)
    ensures LfnSteps(l, LfnEntries(name, sum)).text == name <==> |name| <= 254
  {
    if |name| <= 254 {
      FewFragments(name);
      assert Tail(name, Fragments(name)) == [];
      hide Fragments, LfnDown;
      FragmentsRead(name, sum, Fragments(name), l);
    } else {
      TextFits(l, LfnEntries(name, sum));
    }
  }
}
