/** The kernel's driver as it runs: a name assembled in a fixed buffer, clusters followed one by
    one, an open file's offset moved by every read. */
module FatDriver {
  import opened Options
  import opened Bits
  import opened Words
  import opened FatNames
  import opened FatPaths
  import opened FatNameWriter
  import opened FatDirectories
  import opened FatDisks
  import opened FatModel
  import opened FatReader
  import FatAgreement
  import FatLayouts

  // ---- the long-name buffer -----------------------------------------------------------------

  /** The buffer holds the text collected so far, with a zero behind it. */
  ghost predicate Holding(buffer: array<Byte>, length: nat, have: bool, sum: Byte, l: Lfn)
    reads buffer
  {
    && buffer.Length == NAME_MAX && length + 1 < NAME_MAX
    && l == Lfn(have, buffer[..length], sum) && Ascii(l.text)
    && (have || length > 0 ==> buffer[length] == 0)
  }

  /** The characters of an entry up to a zero or padding. */
  method ReadFragment(e: Slot) returns (fragment: seq<Byte>)
    ensures fragment == FragmentFrom(e, 0)
  {
    hide FragmentFrom;
    fragment := [];
    for u := 0 to FRAGMENT
      invariant fragment + FragmentFrom(e, u) == FragmentFrom(e, 0)
    {
      FragmentStep(e, u);
      var pos := if u < 5 then 1 + u * 2 else if u < 11 then 14 + (u - 5) * 2 else 28 + (u - 11) * 2;
      var unit: nat := e[pos] + 256 * e[pos + 1] as int;
      if unit == 0 || unit == 0xFFFF {
        return;
      }
      var c: Byte := if unit < 128 then unit else 63;
      assert fragment + ([c] + FragmentFrom(e, u + 1)) == fragment + [c] + FragmentFrom(e, u + 1);
      fragment := fragment + [c];
    }
    FragmentEnd(e);
  }

  lemma FragmentStep(e: Slot, u: nat)
    requires u < FRAGMENT
    ensures var pos := if u < 5 then 1 + u * 2 else if u < 11 then 14 + (u - 5) * 2 else 28 + (u - 11) * 2;
      var unit: nat := e[pos] + 256 * e[pos + 1] as int;
      FragmentFrom(e, u) ==
        if unit == 0 || unit == 0xFFFF then [] else [if unit < 128 then unit else 63] + FragmentFrom(e, u + 1)
  {
  }

  lemma FragmentEnd(e: Slot)
    ensures FragmentFrom(e, FRAGMENT) == []
  {
  }

  /** What is there moves right, its zero included. */
  method ShiftRight(buffer: array<Byte>, count: nat, n: nat)
    requires n + count <= buffer.Length
    modifies buffer
    ensures buffer[n..n + count] == old(buffer[..count])
  {
    ghost var before := buffer[..count];
    var i: nat := count;
    while i > 0
      invariant i <= count && buffer[..i] == before[..i] && buffer[n + i..n + count] == before[i..]
    {
      i := i - 1;
      assert buffer[i] == before[i];
      buffer[n + i] := buffer[i];
      assert buffer[n + i..n + count] == [before[i]] + before[i + 1..];
    }
  }

  /** The fragment goes in front of the text collected so far. */
  method Prepend(buffer: array<Byte>, length: nat, fragment: seq<Byte>)
    requires |fragment| + length + 1 < buffer.Length && buffer[length] == 0
    modifies buffer
    ensures buffer[..|fragment| + length] == fragment + old(buffer[..length]) && buffer[|fragment| + length] == 0
  {
    var n := |fragment|;
    ghost var before := buffer[..length + 1];
    ShiftRight(buffer, length + 1, n);
    for k := 0 to n
      invariant buffer[..k] == fragment[..k] && buffer[n..n + length + 1] == before
    {
      buffer[k] := fragment[k];
    }
    assert buffer[..n] == fragment;
    assert buffer[n..n + length] == before[..length];
    assert buffer[..n + length] == buffer[..n] + buffer[n..n + length];
    assert buffer[n + length] == before[length];
  }

  /** One long-name entry. */
  method CollectName(buffer: array<Byte>, oldLength: nat, oldHave: bool, oldSum: Byte, e: Slot, ghost l: Lfn)
    returns (length: nat, have: bool, sum: Byte)
    requires Holding(buffer, oldLength, oldHave, oldSum, l)
    modifies buffer
    ensures Holding(buffer, length, have, sum, LfnStep(l, e))
  {
    length, have, sum := oldLength, oldHave, oldSum;
    var ordinal := e[0] % 32;
    if ordinal == 0 || ordinal > 20 {
      length, have := 0, false;
      assert buffer[..0] == [];
      return;
    }
    if length == 0 {
      buffer[0] := 0;
    }
    assert buffer[..length] == l.text;
    hide FragmentFrom;
    var fragment := ReadFragment(e);
    if |fragment| + length + 1 < NAME_MAX {
      Prepend(buffer, length, fragment);
      length := length + |fragment|;
      sum := e[13];
      have := true;
    }
  }

  /** The name in the buffer, up to its zero. */
  method TakeName(buffer: array<Byte>, ghost length: nat) returns (name: seq<Byte>)
    requires length < buffer.Length && buffer[length] == 0 && Ascii(buffer[..length])
    ensures name == buffer[..length]
  {
    var i := 0;
    assert forall k :: 0 <= k < length ==> buffer[k] == buffer[..length][k];
    while i < buffer.Length && buffer[i] != 0
      invariant i <= length
      decreases buffer.Length - i
    {
      assert i < length;
      i := i + 1;
    }
    return buffer[..i];
  }

  /** The characters before the first blank. */
  method TakeField(field: seq<Byte>) returns (text: seq<Byte>)
    ensures text == UpToBlank(field)
  {
    var n := 0;
    assert field[0..] == field && field[..0] == [];
    while n < |field| && field[n] != 32
      invariant n <= |field| && field[..n] + UpToBlank(field[n..]) == UpToBlank(field)
    {
      assert field[n..][1..] == field[n + 1..] && field[n..][0] == field[n];
      assert field[..n] + ([field[n]] + UpToBlank(field[n + 1..])) == field[..n + 1] + UpToBlank(field[n + 1..]);
      n := n + 1;
    }
    return field[..n];
  }

  method NameOf(buffer: array<Byte>, length: nat, have: bool, sum: Byte, e: Slot, ghost l: Lfn) returns (name: seq<Byte>)
    requires Holding(buffer, length, have, sum, l)
    ensures name == EntryName(e, l)
  {
    if e[0] == 46 {
      return if e[1] == 46 then [46, 46] else [46];
    }
    if have {
      var s := ShortNameChecksum(e[..11]);
      if s == sum {
        name := TakeName(buffer, length);
        return;
      }
    }
    var base := TakeField(e[..8]);
    var ext := TakeField(e[8..11]);
    return Text83(base, ext);
  }

  // ---- reading a directory ------------------------------------------------------------------------

  /** What one slot comes to. */
  datatype Act = Ends | Passes | Counts | Hits(entry: DirEntry)

  method ScanOne(e: Slot, wanted: bool, buffer: array<Byte>, inLength: nat, inHave: bool, inSum: Byte, ghost l: Lfn)
    returns (act: Act, length: nat, have: bool, sum: Byte)
    requires Holding(buffer, inLength, inHave, inSum, l)
    modifies buffer
    ensures Outcome(ScanSlot(e, l), act, wanted)
    ensures !act.Ends? && !act.Hits? ==> Holding(buffer, length, have, sum, ScanSlot(e, l).lfn)
  {
    hide LfnStep, EntryAt, IsLabelAttr, Holding, Fresh;
    length, have, sum := inLength, inHave, inSum;
    if e[0] == 0x00 {
      return Ends, length, have, sum;
    }
    if e[0] == 0xE5 {
      NameDropped(buffer, length, have, sum, l);
      return Passes, 0, false, sum;
    }
    var attr := e[11];
    if attr == ATTR_LONG_NAME {
      length, have, sum := CollectName(buffer, length, have, sum, e, l);
      return Passes, length, have, sum;
    }
    if IsLabelAttr(attr) {
      return Passes, length, have, sum;
    }
    if wanted {
      var entry := ReadEntry(buffer, length, have, sum, e, l);
      return Hits(entry), length, have, sum;
    }
    NameDropped(buffer, length, have, sum, l);
    return Counts, 0, false, sum;
  }

  predicate Outcome(one: Scan, act: Act, wanted: bool) {
    match act
    case Ends => one.stop && one.entries == []
    case Passes => !one.stop && one.entries == []
    case Counts => !one.stop && !wanted && |one.entries| == 1
    case Hits(entry) => !one.stop && wanted && one.entries == [entry]
  }

  /** What the scan of one cluster comes to. */
  datatype Found = Entry(entry: DirEntry) | AtEnd | GoOn(passed: nat)

  /** One cluster of a directory: the wanted entry, the end of the directory, or neither. */
  method ScanCluster(raw: seq<Byte>, slots: nat, index: nat, passed: nat, buffer: array<Byte>, inLength: nat, inHave: bool, inSum: Byte, ghost l: Lfn)
    returns (r: Found, length: nat, have: bool, sum: Byte)
    requires |raw| == 32 * slots && passed <= index && Holding(buffer, inLength, inHave, inSum, l)
    modifies buffer
    ensures Scanned(ScanSlots(SlotsOf(raw), l), r, index, passed)
    ensures r.GoOn? ==> Holding(buffer, length, have, sum, ScanSlots(SlotsOf(raw), l).lfn)
  {
    SlotCount(raw, slots);
    ghost var all := SlotsOf(raw);
    ghost var whole := ScanSlots(all, l);
    hide SlotsOf, ScanSlots, Partly, ScanSlot, Holding, Outcome, Scanned;
    length, have, sum := inLength, inHave, inSum;
    var count := passed;
    ghost var m := l;
    ScanStarts(all, l);
    for j := 0 to slots
      invariant Holding(buffer, length, have, sum, m) && passed <= count <= index
      invariant Partly(whole, ScanSlots(all[j..], m), count - passed)
    {
      SlotIs(raw, slots, j);
      var e: Slot := raw[32 * j..32 * j + 32];
      var act;
      ghost var before := m;
      act, length, have, sum := ScanOne(e, count == index, buffer, length, have, sum, m);
      ScanAdvance(all, j, before, whole, count - passed, act, index, passed);
      if act.Ends? {
        return AtEnd, length, have, sum;
      }
      if act.Hits? {
        return Entry(act.entry), length, have, sum;
      }
      if act.Counts? {
        count := count + 1;
      }
      m := ScanSlot(e, before).lfn;
    }
    ScanEnds(all, m, whole, index, passed, count - passed);
    r := GoOn(count);
  }

  lemma SlotCount(raw: seq<Byte>, n: nat)
    requires |raw| == 32 * n
    ensures |SlotsOf(raw)| == n
  {
    SlotsOfCluster(raw, n);
  }

  lemma SlotIs(raw: seq<Byte>, n: nat, j: nat)
    requires |raw| == 32 * n && j < n
    ensures j < |SlotsOf(raw)| && 32 * j + 32 <= |raw| && SlotsOf(raw)[j] == raw[32 * j..32 * j + 32]
  {
    SlotsOfCluster(raw, n);
  }

  predicate Scanned(whole: Scan, r: Found, index: nat, passed: nat)
    requires passed <= index
  {
    match r
    case Entry(e) => index - passed < |whole.entries| && e == whole.entries[index - passed]
    case AtEnd => whole.stop && passed + |whole.entries| <= index
    case GoOn(p) => !whole.stop && p == passed + |whole.entries| <= index
  }

  method ReadEntry(buffer: array<Byte>, length: nat, have: bool, sum: Byte, e: Slot, ghost l: Lfn) returns (entry: DirEntry)
    requires Holding(buffer, length, have, sum, l)
    ensures entry == EntryAt(e, l)
  {
    hide LeValue, EntryName, Holding;
    var name := NameOf(buffer, length, have, sum, e, l);
    var high := ReadLe(e, 20, 2);
    var low := ReadLe(e, 26, 2);
    var size := ReadLe(e, 28, 4);
    return DirEntry(name, IsDirAttr(e[11]), 0x1_0000 * high + low, size);
  }

  lemma NameDropped(buffer: array<Byte>, length: nat, have: bool, sum: Byte, l: Lfn)
    requires Holding(buffer, length, have, sum, l)
    ensures Holding(buffer, 0, false, sum, Fresh(l))
  {
    assert buffer[..0] == [];
  }

  /** What is left of a scan after its first `n` entries. */
  ghost predicate Partly(whole: Scan, rest: Scan, n: nat) {
    n <= |whole.entries| && whole.entries[n..] == rest.entries && whole.stop == rest.stop && whole.lfn == rest.lfn
  }

  lemma ScanStarts(all: seq<Slot>, l: Lfn)
    ensures Partly(ScanSlots(all, l), ScanSlots(all[0..], l), 0)
  {
    assert all[0..] == all;
    hide ScanSlots;
  }

  lemma ScanAdvance(all: seq<Slot>, j: nat, m: Lfn, whole: Scan, n: nat, act: Act, index: nat, passed: nat)
    requires j < |all| && Partly(whole, ScanSlots(all[j..], m), n) && passed + n <= index
    requires Outcome(ScanSlot(all[j], m), act, passed + n == index)
    ensures match act
      case Ends => Scanned(whole, AtEnd, index, passed)
      case Passes => Partly(whole, ScanSlots(all[j + 1..], ScanSlot(all[j], m).lfn), n)
      case Counts => passed + n < index && Partly(whole, ScanSlots(all[j + 1..], ScanSlot(all[j], m).lfn), n + 1)
      case Hits(entry) => Scanned(whole, Entry(entry), index, passed)
  {
    hide ScanSlot;
    var s := all[j..];
    assert s[0] == all[j] && s[1..] == all[j + 1..];
    var one := ScanSlot(all[j], m);
    if !one.stop {
      var rest := ScanSlots(all[j + 1..], one.lfn);
      assert ScanSlots(s, m) == Then(one, rest);
      if one.entries == [] {
        assert [] + rest.entries == rest.entries;
      } else {
        assert whole.entries[n..][0] == whole.entries[n];
        assert whole.entries[n..][1..] == whole.entries[n + 1..];
        assert (one.entries + rest.entries)[1..] == rest.entries;
      }
    }
  }

  lemma ScanEnds(all: seq<Slot>, m: Lfn, whole: Scan, index: nat, passed: nat, n: nat)
    requires Partly(whole, ScanSlots(all[|all|..], m), n) && passed + n <= index
    ensures Scanned(whole, GoOn(passed + n), index, passed) && whole.lfn == m
  {
    assert all[|all|..] == [];
  }

  /** What one more cluster of a directory comes to. */
  datatype Visit = Answer(r: Result<DirEntry>) | Onward(cluster: nat, passed: nat)

  ghost predicate Answers(whole: Listed, r: Result<DirEntry>, index: nat) {
    r == if index < |whole.entries| then Ok(whole.entries[index]) else Err(whole.end)
  }

  method VisitCluster(d: Disk, cluster: nat, left: nat, index: nat, passed: nat, buffer: array<Byte>, inLength: nat, inHave: bool, inSum: Byte, ghost l: Lfn, ghost whole: Listed)
    returns (v: Visit, length: nat, have: bool, sum: Byte, ghost after: Lfn)
    requires Formed(d) && InChain(cluster) && passed <= index && Holding(buffer, inLength, inHave, inSum, l)
    requires Behind(whole, ListChain(d, cluster, left, l), passed)
    modifies buffer
    ensures v.Answer? ==> Answers(whole, v.r, index)
    ensures v.Onward? ==> left > 0 && v.passed <= index && Holding(buffer, length, have, sum, after)
    ensures v.Onward? ==> Behind(whole, ListChain(d, v.cluster, left - 1, after), v.passed)
  {
    hide ScanSlots, SlotsOf, Formed, Holding, ListChain, Behind, Scanned, NextCluster;
    length, have, sum, after := inLength, inHave, inSum, l;
    if left == 0 || cluster < 2 || cluster >= |d.fat| {
      ListBroken(d, cluster, left, l, whole, passed);
      return Answer(Err(Corrupt)), length, have, sum, after;
    }
    FatLayouts.ClusterSize(d, cluster);
    var found;
    found, length, have, sum := ScanCluster(d.clusters[cluster], d.slots, index, passed, buffer, length, have, sum, l);
    ListAdvance(d, cluster, left, l, whole, found, index, passed);
    match found
    case Entry(e) => v := Answer(Ok(e));
    case AtEnd => v := Answer(Err(NoEntry));
    case GoOn(p) =>
      after := ScanSlots(SlotsOf(d.clusters[cluster]), l).lfn;
      v := Onward(NextCluster(d, cluster), p);
  }

  method NewBuffer() returns (buffer: array<Byte>)
    ensures fresh(buffer) && Holding(buffer, 0, false, 0, NoName())
  {
    buffer := new Byte[NAME_MAX](i => 0);
    assert buffer[..0] == [];
  }

  /** The entry number `index` of a directory. */
  method Fat32Readdir(d: Disk, dir: nat, index: nat) returns (r: Result<DirEntry>)
    requires Formed(d)
    ensures r == ReadDir(d, dir, index)
  {
    hide *;
    SizesAgree(d);
    ReadDirIs(d, dir, index);
    if 32 * d.slots > 65536 {
      return Err(Unsupported);
    }
    var buffer := NewBuffer();
    var length: nat, have, sum: Byte := 0, false, 0;
    var cluster: nat, guard: nat, passed: nat := dir, 0, 0;
    ghost var whole, l := Directory(d, dir), NoName();
    ListStarts(whole);
    while InChain(cluster)
      invariant guard <= |d.fat| - 2 && passed <= index && Holding(buffer, length, have, sum, l)
      invariant Behind(whole, ListChain(d, cluster, |d.fat| - 2 - guard, l), passed)
      decreases |d.fat| - guard
    {
      var v;
      v, length, have, sum, l := VisitCluster(d, cluster, |d.fat| - 2 - guard, index, passed, buffer, length, have, sum, l, whole);
      if v.Answer? {
        OneAnswer(whole, v.r, ReadDir(d, dir, index), index);
        return v.r;
      }
      guard := guard + 1;
      cluster, passed := v.cluster, v.passed;
    }
    ListEnds(d, cluster, |d.fat| - 2 - guard, l, whole, passed, index);
    OneAnswer(whole, Err(NoEntry), ReadDir(d, dir, index), index);
    return Err(NoEntry);
  }

  lemma OneAnswer(whole: Listed, a: Result<DirEntry>, b: Result<DirEntry>, index: nat)
    requires Answers(whole, a, index) && Answers(whole, b, index)
    ensures a == b
  {
  }

  lemma ReadDirIs(d: Disk, dir: nat, index: nat)
    requires Formed(d)
    ensures |d.fat| >= 2
    ensures 32 * d.slots > 65536 ==> ReadDir(d, dir, index) == Err(Unsupported)
    ensures 32 * d.slots <= 65536 ==> Directory(d, dir) == ListChain(d, dir, |d.fat| - 2, NoName())
    ensures Answers(Directory(d, dir), ReadDir(d, dir, index), index)
  {
    hide ListChain;
  }

  /** What is left of a listing after its first `n` entries. */
  ghost predicate Behind(whole: Listed, rest: Listed, n: nat) {
    n <= |whole.entries| && whole.entries[n..] == rest.entries && whole.end == rest.end
  }

  lemma ListStarts(whole: Listed)
    ensures Behind(whole, whole, 0)
  {
    assert whole.entries[0..] == whole.entries;
  }

  lemma ListBroken(d: Disk, cluster: nat, guard: nat, l: Lfn, whole: Listed, n: nat)
    requires Formed(d) && InChain(cluster) && Behind(whole, ListChain(d, cluster, guard, l), n)
    requires guard == 0 || cluster < 2 || cluster >= |d.fat|
    ensures |whole.entries| == n && whole.end == Corrupt
  {
  }

  lemma ListAdvance(d: Disk, cluster: nat, guard: nat, l: Lfn, whole: Listed, found: Found, index: nat, n: nat)
    requires Formed(d) && InChain(cluster) && Behind(whole, ListChain(d, cluster, guard, l), n)
    requires guard > 0 && cluster < |d.fat| && cluster < |d.clusters| && n <= index
    requires Scanned(ScanSlots(SlotsOf(d.clusters[cluster]), l), found, index, n)
    ensures match found
      case Entry(e) => index < |whole.entries| && whole.entries[index] == e
      case AtEnd => index >= |whole.entries| && whole.end == NoEntry
      case GoOn(p) => (
        && p <= index
        && Behind(whole, ListChain(d, NextCluster(d, cluster), guard - 1, ScanSlots(SlotsOf(d.clusters[cluster]), l).lfn), p))
  {
    hide ScanSlots, SlotsOf;
    var s := ScanSlots(SlotsOf(d.clusters[cluster]), l);
    match found
    case Entry(e) =>
      assert whole.entries[n..][index - n] == whole.entries[index];
    case AtEnd =>
    case GoOn(p) =>
      var rest := ListChain(d, NextCluster(d, cluster), guard - 1, s.lfn);
      assert (s.entries + rest.entries)[|s.entries|..] == rest.entries;
      assert whole.entries[n + |s.entries|..] == whole.entries[n..][|s.entries|..];
  }

  lemma ListEnds(d: Disk, cluster: nat, guard: nat, l: Lfn, whole: Listed, n: nat, index: nat)
    requires Formed(d) && !InChain(cluster) && Behind(whole, ListChain(d, cluster, guard, l), n) && n <= index
    ensures Answers(whole, Err(NoEntry), index)
  {
  }

  // ---- finding a path -------------------------------------------------------------------------------

  /** Exact comparison first, then case aside. */
  method SameName(a: seq<Byte>, b: seq<Byte>) returns (same: bool)
    ensures same <==> Upper(a) == Upper(b)
  {
    if a == b {
      return true;
    }
    if |a| != |b| {
      return false;
    }
    for k := 0 to |a|
      invariant forall j :: 0 <= j < k ==> UpperChar(a[j]) == UpperChar(b[j])
    {
      if UpperChar(a[k]) != UpperChar(b[k]) {
        assert Upper(a)[k] != Upper(b)[k];
        return false;
      }
    }
    assert Upper(a) == Upper(b);
    return true;
  }

  method SearchDirectory(d: Disk, dir: nat, name: seq<Byte>) returns (r: Result<DirEntry>)
    requires Formed(d)
    ensures r == Search(d, dir, name)
  {
    var component := Component(name);
    ghost var all := Directory(d, dir);
    hide Directory, Formed, Upper;
    var i := 0;
    assert all.entries[0..] == all.entries;
    while true
      invariant i <= |all.entries| && FirstEntry(all.entries[i..], component) == FirstEntry(all.entries, component)
      decreases |all.entries| - i
    {
      var e := Fat32Readdir(d, dir, i);
      if e.Err? {
        assert all.entries[i..] == [];
        return e;
      }
      assert all.entries[i..][0] == e.value && all.entries[i..][1..] == all.entries[i + 1..];
      var same := SameName(e.value.name, component);
      if same {
        return e;
      }
      i := i + 1;
    }
  }

  /** A path string, cut into components first. */
  method Fat32Lookup(d: Disk, path: seq<Byte>) returns (r: Result<DirEntry>)
    requires Formed(d)
    ensures r == LookupPath(d, Parts(path))
  {
    var parts := ReadComponents(path);
    r := LookupComponents(d, parts);
  }

  method LookupComponents(d: Disk, path: seq<seq<Byte>>) returns (r: Result<DirEntry>)
    requires Formed(d)
    ensures r == LookupPath(d, path)
  {
    hide Search, Formed;
    if path == [] {
      return Ok(DirEntry([47], true, ROOT, 0));
    }
    var cluster, i := ROOT, 0;
    assert path[0..] == path;
    while true
      invariant i < |path| && i <= MAX_DEPTH && LookupPath(d, path) == LookupFrom(d, cluster, path[i..], i)
      decreases |path| - i
    {
      assert path[i..][0] == path[i] && path[i..][1..] == path[i + 1..];
      var e := SearchDirectory(d, cluster, path[i]);
      if e.Err? || i == |path| - 1 {
        return e;
      }
      if !e.value.dir {
        return Err(NotDirectory);
      }
      cluster := e.value.first;
      i := i + 1;
      if i > MAX_DEPTH {
        return Err(Invalid);
      }
    }
  }

  // ---- reading a file ---------------------------------------------------------------------------------

  /** An open file. */
  class OpenFile {
    const disk: Disk
    const entry: DirEntry
    var offset: nat

    constructor (disk: Disk, entry: DirEntry)
      ensures this.disk == disk && this.entry == entry && offset == 0
    {
      this.disk, this.entry, offset := disk, entry, 0;
    }

    /** Up to `bytes` bytes from where the last read ended. */
    method Read(bytes: nat) returns (r: Result<seq<Byte>>)
      requires Formed(disk)
      modifies this
      ensures r == ReadAt(disk, entry.first, entry.size, old(offset), bytes)
      ensures offset == old(offset) + if r.Ok? then |r.value| else 0
    {
      hide Formed, ReadChain, Whole, Rest, SkipClusters;
      SizesAgree(disk);
      if offset >= entry.size {
        return Ok([]);
      }
      var remaining := entry.size - offset;
      var need := if bytes > remaining then remaining else bytes;
      ReadAtIs(disk, entry.first, entry.size, offset, bytes, need);
      var skipped := SkipTo(disk, entry.first, Whole(offset, 32 * disk.slots));
      if skipped.Err? {
        return Err(skipped.status);
      }
      r := ReadClusters(disk, skipped.value, Rest(offset, 32 * disk.slots), need);
      if r.Ok? {
        offset := offset + |r.value|;
      }
    }
  }

  /** Whole clusters before the read position. */
  method SkipTo(d: Disk, first: nat, skip: nat) returns (r: Result<nat>)
    ensures r == SkipClusters(d, first, skip)
  {
    var cluster := first;
    for i := 0 to skip
      invariant SkipClusters(d, first, skip) == SkipClusters(d, cluster, skip - i)
    {
      if !InChain(cluster) {
        return Err(Corrupt);
      }
      cluster := NextCluster(d, cluster);
    }
    return Ok(cluster);
  }

  /** What has been read, and what is still to come. */
  function Joined(done: seq<Byte>, rest: Result<seq<Byte>>): Result<seq<Byte>> {
    match rest
    case Ok(more) => Ok(done + more)
    case Err(s) => Err(s)
  }

  /** Cluster after cluster until there is enough. */
  method ReadClusters(d: Disk, first: nat, start: nat, need: nat) returns (r: Result<seq<Byte>>)
    requires Formed(d) && start < 32 * d.slots
    ensures r == ReadChain(d, first, start, need, |d.fat| - 2)
  {
    SizesAgree(d);
    hide Formed, InChain, NextCluster, ReadChain, Joined;
    var out: seq<Byte> := [];
    var cluster: nat, within: nat, guard: nat := first, start, 0;
    ghost var whole := ReadChain(d, first, start, need, |d.fat| - 2);
    JoinedNothing(whole);
    while |out| < need
      invariant |out| <= need && within < 32 * d.slots && guard <= |d.fat| - 2
      invariant whole == Joined(out, ReadChain(d, cluster, within, need - |out|, |d.fat| - 2 - guard))
      decreases |d.fat| - guard
    {
      ReadStep(d, cluster, within, need - |out|, |d.fat| - 2 - guard, out);
      if !InChain(cluster) {
        return Err(Corrupt);
      }
      guard := guard + 1;
      if guard > |d.fat| - 2 {
        return Err(Corrupt);
      }
      if cluster >= |d.fat| {
        return Err(Corrupt);
      }
      FatLayouts.ClusterSize(d, cluster);
      var available := 32 * d.slots - within;
      var take := if need - |out| > available then available else need - |out|;
      out := out + d.clusters[cluster][within..within + take];
      within := 0;
      if |out| < need {
        cluster := NextCluster(d, cluster);
      } else {
        NothingMore(d, cluster, |d.fat| - 2 - guard, out);
        return Ok(out);
      }
    }
    NothingMoreAt(d, cluster, within, |d.fat| - 2 - guard, out);
    return Ok(out);
  }

  lemma JoinedNothing(r: Result<seq<Byte>>)
    ensures Joined([], r) == r
  {
    if r.Ok? {
      assert [] + r.value == r.value;
    }
  }

  lemma NothingMore(d: Disk, cluster: nat, guard: nat, out: seq<Byte>)
    requires Formed(d)
    ensures 0 < 32 * d.slots && Joined(out, ReadChain(d, cluster, 0, 0, guard)) == Ok(out)
  {
    assert out + [] == out;
  }

  lemma NothingMoreAt(d: Disk, cluster: nat, within: nat, guard: nat, out: seq<Byte>)
    requires Formed(d) && within < 32 * d.slots
    ensures Joined(out, ReadChain(d, cluster, within, 0, guard)) == Ok(out)
  {
    assert out + [] == out;
  }

  lemma ReadStep(d: Disk, cluster: nat, within: nat, need: nat, guard: nat, out: seq<Byte>)
    requires Formed(d) && within < 32 * d.slots && need > 0
    ensures !InChain(cluster) || guard == 0 || cluster >= |d.fat| ==>
      Joined(out, ReadChain(d, cluster, within, need, guard)) == Err(Corrupt)
    ensures InChain(cluster) && guard > 0 && cluster < |d.fat| ==>
      && cluster < |d.clusters| && |d.clusters[cluster]| == 32 * d.slots
      && var available := 32 * d.slots - within;
         Joined(out, ReadChain(d, cluster, within, need, guard)) ==
           if need <= available then Ok(out + d.clusters[cluster][within..within + need])
           else Joined(out + d.clusters[cluster][within..within + available], ReadChain(d, NextCluster(d, cluster), 0, need - available, guard - 1))
  {
    hide InChain, NextCluster;
    if InChain(cluster) && guard > 0 && cluster < |d.fat| {
      var available := 32 * d.slots - within;
      assert d.clusters[cluster][within..] == d.clusters[cluster][within..within + available];
      if need > available {
        var rest := ReadChain(d, NextCluster(d, cluster), 0, need - available, guard - 1);
        if rest.Ok? {
          assert out + (d.clusters[cluster][within..] + rest.value) == out + d.clusters[cluster][within..] + rest.value;
        }
      }
    }
  }

  /** The whole of a file, if it fits. */
  method Fat32ReadFile(d: Disk, path: seq<Byte>, room: nat) returns (r: Result<seq<Byte>>)
    requires Formed(d)
    ensures r == ReadFile(d, Parts(path), room)
  {
    hide Formed, LookupPath, ReadAt, Parts;
    var e := Fat32Lookup(d, path);
    if e.Err? {
      return Err(e.status);
    }
    if e.value.dir {
      return Err(IsDirectory);
    }
    if e.value.size > room {
      return Err(Overflow);
    }
    var file := new OpenFile(d, e.value);
    r := file.Read(e.value.size);
  }
}
