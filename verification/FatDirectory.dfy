/** Directories: what the writer puts into one, and what the reader and the writer find
    there. */
module FatDirectories {
  import opened Options
  import opened Bits
  import opened Words
  import opened FatNames

  // ---- entries --------------------------------------------------------------------------------

  const ATTR_DIRECTORY: Byte := 0x10
  const ATTR_ARCHIVE: Byte := 0x20
  const ATTR_LONG_NAME: Byte := 0x0F

  datatype Rec =
    | Dot(first: nat)
    | DotDot(first: nat)
    | Named(name: seq<Byte>, dir: bool, first: nat, size: nat)

  /** Names the reader can hold, and numbers that fit their fields. */
  predicate ValidRec(r: Rec) {
    && r.first < 0x1_0000_0000
    && (r.Named? ==> Ascii(r.name) && 0 < |r.name| <= 254 && r.size < 0x1_0000_0000)
  }

  function ShortEntry(short: seq<Byte>, attr: Byte, first: nat, size: nat): (e: Slot)
    requires |short| == 11
  {
    short + [attr] + Zeros(8) + LeBytes(first / 0x1_0000, 2) + Zeros(4) + LeBytes(first % 0x1_0000, 2) + LeBytes(size, 4)
  }

  function ShortOf(r: Rec): (s: seq<Byte>)
    ensures |s| == 11 && s[0] != 0 && s[0] != 0xE5 && (s[0] == 46 <==> !r.Named?)
  {
    match r
    case Dot(_) => Spaced([46], 11)
    case DotDot(_) => Spaced([46, 46], 11)
    case Named(name, dir, _, _) => ShortName(name, dir)
  }

  function AttrOf(r: Rec): Byte {
    if r.Named? && !r.dir then ATTR_ARCHIVE else ATTR_DIRECTORY
  }

  function SizeOf(r: Rec): nat {
    if r.Named? then r.size else 0
  }

  function SlotOf(r: Rec): Slot
  {
    ShortEntry(ShortOf(r), AttrOf(r), r.first, SizeOf(r))
  }

  function LongSlots(r: Rec): seq<Slot>
    requires ValidRec(r)
  {
    if r.Named? then LfnEntries(r.name, Checksum(ShortOf(r), 0)) else []
  }

  function RecSlots(r: Rec): (s: seq<Slot>)
    requires ValidRec(r)
    ensures s != []
  {
    LongSlots(r) + [SlotOf(r)]
  }

  predicate ValidRecs(rs: seq<Rec>) {
    forall r :: r in rs ==> ValidRec(r)
  }

  function RecsSlots(rs: seq<Rec>): seq<Slot>
    requires ValidRecs(rs)
  {
    if rs == [] then [] else RecSlots(rs[0]) + RecsSlots(rs[1..])
  }

  // ---- what the reader finds --------------------------------------------------------------------

  datatype DirEntry = DirEntry(name: seq<Byte>, dir: bool, first: nat, size: nat)

  predicate IsDirAttr(attr: Byte) {
    attr / 16 % 2 == 1
  }

  predicate IsLabelAttr(attr: Byte) {
    attr / 8 % 2 == 1 && !IsDirAttr(attr)
  }

  /** The text before the first blank. */
  function UpToBlank(s: seq<Byte>): seq<Byte> {
    if s == [] || s[0] == 32 then [] else [s[0]] + UpToBlank(s[1..])
  }

  function Text83(base: seq<Byte>, ext: seq<Byte>): seq<Byte> {
    if ext == [] then base else base + [46] + ext
  }

  function EntryName(e: Slot, l: Lfn): seq<Byte>
  {
    if e[0] == 46 then if e[1] == 46 then [46, 46] else [46]
    else if l.have && l.sum == Checksum(e[..11], 0) then l.text
    else Text83(UpToBlank(e[..8]), UpToBlank(e[8..11]))
  }

  function EntryAt(e: Slot, l: Lfn): DirEntry
  {
    DirEntry(EntryName(e, l), IsDirAttr(e[11]), 0x1_0000 * LeValue(e[20..22]) + LeValue(e[26..28]), LeValue(e[28..32]))
  }

  /** The entries met so far, what has been collected of a long name, and whether the end of
      the directory was seen. */
  datatype Scan = Scan(entries: seq<DirEntry>, lfn: Lfn, stop: bool)

  function Fresh(l: Lfn): Lfn {
    l.(have := false, text := [])
  }

  function ScanSlot(e: Slot, l: Lfn): Scan {
    if e[0] == 0 then Scan([], l, true)
    else if e[0] == 0xE5 then Scan([], Fresh(l), false)
    else if e[11] == ATTR_LONG_NAME then Scan([], LfnStep(l, e), false)
    else if IsLabelAttr(e[11]) then Scan([], l, false)
    else Scan([EntryAt(e, l)], Fresh(l), false)
  }

  function Then(a: Scan, b: Scan): Scan {
    Scan(a.entries + b.entries, b.lfn, b.stop)
  }

  function ScanSlots(s: seq<Slot>, l: Lfn): Scan
    decreases |s|
  {
    if s == [] then Scan([], l, false)
    else
      var one := ScanSlot(s[0], l);
      if one.stop then one else Then(one, ScanSlots(s[1..], one.lfn))
  }

  lemma ThenLaws(a: Scan, b: Scan, c: Scan, l: Lfn)
    ensures Then(Then(a, b), c) == Then(a, Then(b, c)) && Then(Scan([], l, false), a) == a
    ensures Then(a, b).lfn == b.lfn && Then(a, b).stop == b.stop
  {
    assert (a.entries + b.entries) + c.entries == a.entries + (b.entries + c.entries);
    assert [] + a.entries == a.entries;
  }

  lemma {:induction false} ScanConcat(a: seq<Slot>, b: seq<Slot>, l: Lfn)
    ensures ScanSlots(a + b, l) ==
      var x := ScanSlots(a, l); if x.stop then x else Then(x, ScanSlots(b, x.lfn))
    decreases |a|
  {
    hide ScanSlot, Then;
    if a == [] {
      assert a + b == b;
      ThenLaws(ScanSlots(b, l), ScanSlots(b, l), ScanSlots(b, l), l);
    } else {
      assert (a + b)[1..] == a[1..] + b && (a + b)[0] == a[0];
      var one := ScanSlot(a[0], l);
      if !one.stop {
        ScanConcat(a[1..], b, one.lfn);
        var rest := ScanSlots(a[1..], one.lfn);
        ThenLaws(one, rest, ScanSlots(b, rest.lfn), l);
      }
    }
  }

  // ---- entries are found as written -----------------------------------------------------------------

  lemma LongSlotScanned(name: seq<Byte>, sum: Byte, i: nat, l: Lfn)
    requires i < Fragments(name) < 64
    ensures var e := LfnEntry(Ordinal(i, Fragments(name)), sum, Piece(name, i));
      ScanSlot(e, l) == Scan([], LfnStep(l, e), false)
  {
    EntryHead(Ordinal(i, Fragments(name)), sum, Piece(name, i));
    hide LfnEntry, Piece, LfnStep, Fragments;
  }

  lemma {:induction false} LongSlotsScanned(name: seq<Byte>, sum: Byte, i: nat, l: Lfn)
    requires i <= Fragments(name) < 64
    ensures ScanSlots(LfnDown(name, sum, i), l) == Scan([], LfnSteps(l, LfnDown(name, sum, i)), false)
    decreases i
  {
    hide LfnEntry, Piece, LfnStep, LfnDown, Fragments, ScanSlot, Ordinal;
    if i > 0 {
      var s := LfnDown(name, sum, i);
      LfnDownStep(name, sum, i);
      LongSlotScanned(name, sum, i - 1, l);
      LongSlotsScanned(name, sum, i - 1, LfnStep(l, s[0]));
    } else {
      assert LfnDown(name, sum, 0) == [];
    }
  }

  lemma SlotFields(r: Rec)
    requires ValidRec(r)
    ensures var e := SlotOf(r);
      && e[..11] == ShortOf(r) && e[0] == ShortOf(r)[0] && e[1] == ShortOf(r)[1] && e[11] == AttrOf(r)
      && 0x1_0000 * LeValue(e[20..22]) + LeValue(e[26..28]) == r.first
      && LeValue(e[28..32]) == SizeOf(r)
  {
    hide LeBytes, ShortOf, LeValue;
    var e, hi, lo := SlotOf(r), r.first / 0x1_0000, r.first % 0x1_0000;
    assert e[20..22] == LeBytes(hi, 2) && e[26..28] == LeBytes(lo, 2) && e[28..32] == LeBytes(SizeOf(r), 4);
    WordPowers();
    LeValueOfBytes(hi, 2);
    LeValueOfBytes(lo, 2);
    LeValueOfBytes(SizeOf(r), 4);
  }

  lemma WordPowers()
    ensures Pow2(16) == 0x1_0000 && Pow2(32) == 0x1_0000_0000
  {
    assert Pow2(4) == 16;
    assert Pow2(8) == 0x100;
    assert Pow2(12) == 0x1000;
    assert Pow2(16) == 0x1_0000;
    assert Pow2(20) == 0x10_0000;
    assert Pow2(24) == 0x100_0000;
    assert Pow2(28) == 0x1000_0000;
  }

  /** What a reader is to be told of an entry. */
  function Listing(r: Rec): DirEntry {
    match r
    case Dot(first) => DirEntry([46], true, first, 0)
    case DotDot(first) => DirEntry([46, 46], true, first, 0)
    case Named(name, dir, first, size) => DirEntry(name, dir, first, size)
  }

  lemma AttrKind(r: Rec)
    ensures var a := AttrOf(r); IsDirAttr(a) == (!r.Named? || r.dir) && !IsLabelAttr(a) && a != ATTR_LONG_NAME
  {
  }

  lemma NameListed(r: Rec, l: Lfn)
    requires ValidRec(r)
    requires r.Named? ==> l == Lfn(true, r.name, Checksum(ShortOf(r), 0))
    ensures EntryName(SlotOf(r), l) == Listing(r).name
  {
    SlotFields(r);
    DotNames();
    hide SlotOf, ShortName, Spaced, Checksum, UpToBlank, Text83, ValidRec;
  }

  lemma SlotListed(r: Rec, l: Lfn)
    requires ValidRec(r)
    requires r.Named? ==> l == Lfn(true, r.name, Checksum(ShortOf(r), 0))
    ensures EntryAt(SlotOf(r), l) == Listing(r)
  {
    NameListed(r, l);
    SlotFields(r);
    AttrKind(r);
    hide SlotOf, ShortOf, LeValue, EntryName, AttrOf, IsDirAttr, Checksum, ValidRec;
  }

  lemma DotNames()
    ensures Spaced([46], 11)[1] == 32 && Spaced([46, 46], 11)[1] == 46
  {
  }

  /** A slot that holds a real entry ends the collection of a long name. */
  lemma SlotScanned(r: Rec, l: Lfn)
    requires ValidRec(r)
    requires r.Named? ==> l == Lfn(true, r.name, Checksum(ShortOf(r), 0))
    ensures ScanSlot(SlotOf(r), l) == Scan([Listing(r)], Fresh(l), false)
  {
    SlotFields(r);
    AttrKind(r);
    SlotListed(r, l);
    hide SlotOf, ShortOf, Checksum, EntryAt, LfnStep, AttrOf, IsDirAttr, IsLabelAttr, ValidRec, Listing;
  }

  lemma LongNameScanned(r: Rec, l: Lfn)
    requires ValidRec(r) && l.text == []
    ensures ScanSlots(LongSlots(r), l)
      == Scan([], if r.Named? then Lfn(true, r.name, Checksum(ShortOf(r), 0)) else l, false)
  {
    if r.Named? {
      var sum := Checksum(ShortOf(r), 0);
      hide ShortOf, Checksum, LfnSteps, LfnDown, Fragments, ScanSlots;
      FewFragments(r.name);
      LongSlotsScanned(r.name, sum, Fragments(r.name), l);
      LongNameRoundTrip(r.name, sum, l);
    }
  }

  lemma RecScanned(r: Rec, l: Lfn)
    requires ValidRec(r) && l.text == []
    ensures var s := ScanSlots(RecSlots(r), l); s.entries == [Listing(r)] && s.lfn.text == [] && !s.stop
  {
    hide LongSlots, ShortOf, Checksum, SlotOf, ScanSlot;
    LongNameScanned(r, l);
    ScanConcat(LongSlots(r), [SlotOf(r)], l);
    SlotScanned(r, if r.Named? then Lfn(true, r.name, Checksum(ShortOf(r), 0)) else l);
    assert [SlotOf(r)][1..] == [];
  }

  /** Slots that have never been used. */
  function Unused(n: nat): (s: seq<Slot>)
    ensures |s| == n && forall i :: 0 <= i < n ==> s[i] == Zeros(32)
  {
    if n == 0 then [] else [Zeros(32)] + Unused(n - 1)
  }

  function Listings(rs: seq<Rec>): (es: seq<DirEntry>)
    ensures |es| == |rs| && forall i :: 0 <= i < |rs| ==> es[i] == Listing(rs[i])
  {
    if rs == [] then [] else [Listing(rs[0])] + Listings(rs[1..])
  }

  lemma {:induction false} RecsScanned(rs: seq<Rec>, l: Lfn)
    requires ValidRecs(rs) && l.text == []
    ensures var s := ScanSlots(RecsSlots(rs), l); s.entries == Listings(rs) && s.lfn.text == [] && !s.stop
    decreases |rs|
  {
    hide RecSlots;
    if rs != [] {
      ScanConcat(RecSlots(rs[0]), RecsSlots(rs[1..]), l);
      RecScanned(rs[0], l);
      hide ScanSlots;
      RecsScanned(rs[1..], ScanSlots(RecSlots(rs[0]), l).lfn);
    }
  }

  /** The reader lists a directory entry by entry, in the order in which they were added, and
      nothing more. */
  lemma DirectoryListed(rs: seq<Rec>, room: nat, l: Lfn)
    requires ValidRecs(rs) && l.text == []
    ensures ScanSlots(RecsSlots(rs) + Unused(room), l).entries == Listings(rs)
  {
    ScanConcat(RecsSlots(rs), Unused(room), l);
    RecsScanned(rs, l);
    hide RecsSlots;
  }

  // ---- what the writer finds ----------------------------------------------------------------------

  /** Without trailing blanks. */
  function StripRight(s: seq<Byte>): seq<Byte> {
    if s != [] && s[|s| - 1] == 32 then StripRight(s[..|s| - 1]) else s
  }

  /** The writer knows entries by their short names only. */
  function Name83(short: seq<Byte>): seq<Byte>
    requires |short| == 11
  {
    Text83(StripRight(short[..8]), StripRight(short[8..]))
  }

  function ShortEntryAt(e: Slot): DirEntry {
    DirEntry(Name83(e[..11]), IsDirAttr(e[11]), 0x1_0000 * LeValue(e[20..22]) + LeValue(e[26..28]), LeValue(e[28..32]))
  }

  datatype Shorts = Shorts(entries: seq<DirEntry>, stop: bool)

  /** The entries the writer lists: long-name and deleted ones are passed over. */
  function ShortScan(s: seq<Slot>): Shorts {
    if s == [] then Shorts([], false)
    else if s[0][0] == 0 then Shorts([], true)
    else
      var rest := ShortScan(s[1..]);
      if s[0][0] == 0xE5 || s[0][11] == ATTR_LONG_NAME then rest
      else Shorts([ShortEntryAt(s[0])] + rest.entries, rest.stop)
  }

  lemma {:induction false} ShortConcat(a: seq<Slot>, b: seq<Slot>)
    ensures ShortScan(a + b) ==
      var x := ShortScan(a); if x.stop then x else Shorts(x.entries + ShortScan(b).entries, ShortScan(b).stop)
    decreases |a|
  {
    hide ShortEntryAt;
    if a == [] {
      assert a + b == b;
      assert [] + ShortScan(b).entries == ShortScan(b).entries;
    } else {
      assert (a + b)[1..] == a[1..] + b;
      ShortConcat(a[1..], b);
      var one := [ShortEntryAt(a[0])];
      assert one + (ShortScan(a[1..]).entries + ShortScan(b).entries) == one + ShortScan(a[1..]).entries + ShortScan(b).entries;
    }
  }

  function FirstOf(es: seq<DirEntry>, wanted: seq<Byte>): Option<DirEntry> {
    if es == [] then None else if Upper(es[0].name) == wanted then Some(es[0]) else FirstOf(es[1..], wanted)
  }

  /** The first entry whose short name is `wanted`, upper case. */
  function FindSlot(s: seq<Slot>, wanted: seq<Byte>): Option<DirEntry> {
    if s == [] || s[0][0] == 0 then None
    else if s[0][0] == 0xE5 || s[0][11] == ATTR_LONG_NAME then FindSlot(s[1..], wanted)
    else if Upper(ShortEntryAt(s[0]).name) == wanted then Some(ShortEntryAt(s[0]))
    else FindSlot(s[1..], wanted)
  }

  lemma {:induction false} FindIsFirst(s: seq<Slot>, wanted: seq<Byte>)
    ensures FindSlot(s, wanted) == FirstOf(ShortScan(s).entries, wanted)
  {
    hide ShortEntryAt, Upper;
    if s != [] && s[0][0] != 0 {
      FindIsFirst(s[1..], wanted);
      var one := [ShortEntryAt(s[0])];
      assert (one + ShortScan(s[1..]).entries)[1..] == ShortScan(s[1..]).entries;
    }
  }

  function Key83(r: Rec): seq<Byte> {
    Upper(Name83(ShortOf(r)))
  }

  function FindRec(rs: seq<Rec>, wanted: seq<Byte>): Option<Rec> {
    if rs == [] then None else if Key83(rs[0]) == wanted then Some(rs[0]) else FindRec(rs[1..], wanted)
  }

  function ShortListing(r: Rec): DirEntry {
    DirEntry(Name83(ShortOf(r)), !r.Named? || r.dir, r.first, SizeOf(r))
  }

  lemma {:induction false} LongSlotsPassed(name: seq<Byte>, sum: Byte, i: nat, rest: seq<Slot>, wanted: seq<Byte>)
    requires i <= Fragments(name) < 64
    ensures FindSlot(LfnDown(name, sum, i) + rest, wanted) == FindSlot(rest, wanted)
    decreases i
  {
    hide LfnEntry, Piece, LfnDown, Fragments, ShortEntryAt;
    if i > 0 {
      var s := LfnDown(name, sum, i);
      LfnDownStep(name, sum, i);
      EntryHead(Ordinal(i - 1, Fragments(name)), sum, Piece(name, i - 1));
      assert (s + rest)[1..] == LfnDown(name, sum, i - 1) + rest;
      LongSlotsPassed(name, sum, i - 1, rest, wanted);
    } else {
      assert LfnDown(name, sum, 0) + rest == rest;
    }
  }

  lemma SlotShown(r: Rec)
    requires ValidRec(r)
    ensures var e := SlotOf(r);
      ShortEntryAt(e) == ShortListing(r) && e[0] != 0 && e[0] != 0xE5 && e[11] != ATTR_LONG_NAME
  {
    SlotFields(r);
    AttrKind(r);
    hide SlotOf, ShortOf, LeValue, Name83, AttrOf, IsDirAttr, IsLabelAttr;
  }

  lemma LongNamePassed(r: Rec, rest: seq<Slot>, wanted: seq<Byte>)
    requires ValidRec(r)
    ensures FindSlot(LongSlots(r) + rest, wanted) == FindSlot(rest, wanted)
  {
    hide ShortOf, LfnDown, Fragments, Checksum, FindSlot;
    if r.Named? {
      FewFragments(r.name);
      LongSlotsPassed(r.name, Checksum(ShortOf(r), 0), Fragments(r.name), rest, wanted);
    } else {
      assert LongSlots(r) + rest == rest;
    }
  }

  lemma ShortSlotFound(r: Rec, rest: seq<Slot>, wanted: seq<Byte>)
    requires ValidRec(r)
    ensures FindSlot(RecSlots(r) + rest, wanted) ==
      if Key83(r) == wanted then Some(ShortListing(r)) else FindSlot(rest, wanted)
  {
    hide LongSlots, SlotOf, ShortOf, ShortEntryAt, Upper, Name83;
    SlotShown(r);
    var tail := [SlotOf(r)] + rest;
    assert tail[1..] == rest;
    assert RecSlots(r) + rest == LongSlots(r) + tail;
    LongNamePassed(r, tail, wanted);
  }

  /** The writer's search finds the first entry that was added with that short name. */
  lemma {:induction false} DirectorySearched(rs: seq<Rec>, room: nat, wanted: seq<Byte>)
    requires ValidRecs(rs)
    ensures FindSlot(RecsSlots(rs) + Unused(room), wanted) ==
      match FindRec(rs, wanted)
      case Some(r) => Some(ShortListing(r))
      case None => None
  {
    hide RecSlots, Key83, ShortListing;
    if rs == [] {
      assert RecsSlots(rs) + Unused(room) == Unused(room);
    } else {
      var rest := RecsSlots(rs[1..]) + Unused(room);
      assert RecsSlots(rs) + Unused(room) == RecSlots(rs[0]) + rest;
      ShortSlotFound(rs[0], rest, wanted);
      DirectorySearched(rs[1..], room, wanted);
    }
  }

  /** No slot in use looks unused or deleted. */
  lemma {:induction false} SlotsInUse(rs: seq<Rec>)
    requires ValidRecs(rs)
    ensures forall e :: e in RecsSlots(rs) ==> e[0] != 0 && e[0] != 0xE5
  {
    if rs != [] {
      RecInUse(rs[0]);
      hide RecSlots;
      SlotsInUse(rs[1..]);
    }
  }

  lemma RecInUse(r: Rec)
    requires ValidRec(r)
    ensures forall e :: e in RecSlots(r) ==> e[0] != 0 && e[0] != 0xE5
  {
    SlotFields(r);
    hide SlotOf, LfnDown, Fragments;
    if r.Named? {
      FewFragments(r.name);
      LongInUse(r.name, Checksum(ShortOf(r), 0), Fragments(r.name));
    }
  }

  lemma {:induction false} LongInUse(name: seq<Byte>, sum: Byte, i: nat)
    requires i <= Fragments(name) < 64
    ensures forall e :: e in LfnDown(name, sum, i) ==> e[0] != 0 && e[0] != 0xE5
    decreases i
  {
    hide LfnEntry, Piece, Fragments;
    if i > 0 {
      EntryHead(Ordinal(i - 1, Fragments(name)), sum, Piece(name, i - 1));
      LongInUse(name, sum, i - 1);
    }
  }

  // ---- names legal in both forms ---------------------------------------------------------------------

  /** A directory name that is its own short name. */
  predicate Legal83(name: seq<Byte>) {
    0 < |name| <= 8 && forall i :: 0 <= i < |name| ==> LegalChar(UpperChar(name[i]))
  }

  lemma {:induction false} NoDot(s: seq<Byte>)
    requires forall i :: 0 <= i < |s| ==> s[i] != 46
    ensures LastDot(s) == |s|
  {
    if s != [] {
      NoDot(s[..|s| - 1]);
    }
  }

  lemma {:induction false} StripSpaced(s: seq<Byte>, n: nat)
    requires |s| <= n && (s != [] ==> s[|s| - 1] != 32)
    ensures StripRight(Spaced(s, n)) == s
    decreases n
  {
    if n > |s| {
      assert Spaced(s, n)[..n - 1] == Spaced(s, n - 1);
      StripSpaced(s, n - 1);
    } else {
      assert Spaced(s, n) == s;
    }
  }

  lemma UpperTwice(s: seq<Byte>)
    ensures Upper(Upper(s)) == Upper(s)
  {
  }

  lemma LegalKey(r: Rec)
    requires r.Named? && Legal83(r.name)
    ensures Key83(r) == Upper(r.name)
  {
    var upper := Upper(r.name);
    NoDot(upper);
    assert upper[..|upper|] == upper;
    assert Take(Legal(upper), 8) == upper;
    var short := ShortOf(r);
    assert short == Spaced(upper, 8) + Spaced([], 3);
    assert short[..8] == Spaced(upper, 8) && short[8..] == Spaced([], 3);
    StripSpaced(upper, 8);
    StripSpaced([], 3);
    UpperTwice(r.name);
  }
}
