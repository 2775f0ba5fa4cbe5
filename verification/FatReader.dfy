/** The kernel's FAT32 reader on a volume: directory listings, path lookup, file contents; and
    that on a volume the writer has built it finds what was written. */
module FatReader {
  import opened Words
  import opened Arithmetic
  import opened Options
  import opened Bits
  import opened FatNames
  import FatPaths
  import opened FatDirectories
  import opened FatDisks
  import opened FatModel
  import FatAgreement
  import FatLayouts

  datatype Status = NoEntry | Corrupt | NotDirectory | IsDirectory | Overflow | Invalid | Unsupported

  datatype Result<+T> = Ok(value: T) | Err(status: Status)

  const MAX_DEPTH: nat := 32

  /** The table entry, without its four reserved bits. */
  function NextCluster(d: Disk, c: nat): nat {
    if c < |d.fat| then d.fat[c] % 0x1000_0000 else EOC
  }

  predicate InChain(c: nat) {
    2 <= c < EOC
  }

  // ---- directories ------------------------------------------------------------------------------

  datatype Listed = Listed(entries: seq<DirEntry>, end: Status)

  /** The entries of a directory's chain, and how the listing ends; `guard` clusters may still
      be visited. */
  ghost function ListChain(d: Disk, cluster: nat, guard: nat, l: Lfn): Listed
    requires Formed(d)
    decreases guard
  {
    if !InChain(cluster) then Listed([], NoEntry)
    else if guard == 0 || cluster >= |d.fat| then Listed([], Corrupt)
    else
      var s := ScanSlots(SlotsOf(d.clusters[cluster]), l);
      if s.stop then Listed(s.entries, NoEntry)
      else
        var rest := ListChain(d, NextCluster(d, cluster), guard - 1, s.lfn);
        Listed(s.entries + rest.entries, rest.end)
  }

  function NoName(): Lfn {
    Lfn(false, [], 0)
  }

  ghost function Directory(d: Disk, dir: nat): Listed
    requires Formed(d)
  {
    if 32 * d.slots > 65536 then Listed([], Unsupported) else ListChain(d, dir, |d.fat| - 2, NoName())
  }

  ghost function ReadDir(d: Disk, dir: nat, index: nat): Result<DirEntry>
    requires Formed(d)
  {
    var l := Directory(d, dir);
    if index < |l.entries| then Ok(l.entries[index]) else Err(l.end)
  }

  // ---- paths --------------------------------------------------------------------------------------

  /** The first entry with that name, case aside. */
  function FirstEntry(es: seq<DirEntry>, name: seq<Byte>): Option<DirEntry> {
    if es == [] then None else if Upper(es[0].name) == Upper(name) then Some(es[0]) else FirstEntry(es[1..], name)
  }

  /** A component longer than the buffer is cut. */
  function Component(name: seq<Byte>): seq<Byte> {
    Take(name, NAME_MAX - 1)
  }

  ghost function Search(d: Disk, dir: nat, name: seq<Byte>): Result<DirEntry>
    requires Formed(d)
  {
    match FirstEntry(Directory(d, dir).entries, Component(name))
    case Some(e) => Ok(e)
    case None => Err(Directory(d, dir).end)
  }

  ghost function LookupFrom(d: Disk, cluster: nat, path: seq<seq<Byte>>, depth: nat): Result<DirEntry>
    requires Formed(d) && path != []
    decreases |path|
  {
    match Search(d, cluster, path[0])
    case Err(s) => Err(s)
    case Ok(e) =>
      if |path| == 1 then Ok(e)
      else if !e.dir then Err(NotDirectory)
      else if depth + 1 > MAX_DEPTH then Err(Invalid)
      else LookupFrom(d, e.first, path[1..], depth + 1)
  }

  /** A path is its list of components; the empty one is the root. */
  ghost function LookupPath(d: Disk, path: seq<seq<Byte>>): Result<DirEntry>
    requires Formed(d)
  {
    if path == [] then Ok(DirEntry([47], true, ROOT, 0)) else LookupFrom(d, ROOT, path, 0)
  }

  // ---- contents -------------------------------------------------------------------------------------

  function SkipClusters(d: Disk, cluster: nat, skip: nat): Result<nat>
    decreases skip
  {
    if skip == 0 then Ok(cluster)
    else if !InChain(cluster) then Err(Corrupt)
    else SkipClusters(d, NextCluster(d, cluster), skip - 1)
  }

  ghost function ReadChain(d: Disk, cluster: nat, within: nat, need: nat, guard: nat): Result<seq<Byte>>
    requires Formed(d) && within < 32 * d.slots
    decreases guard
  {
    if need == 0 then Ok([])
    else if !InChain(cluster) || guard == 0 || cluster >= |d.fat| then Err(Corrupt)
    else
      var available := 32 * d.slots - within;
      if need <= available then Ok(d.clusters[cluster][within..within + need])
      else match ReadChain(d, NextCluster(d, cluster), 0, need - available, guard - 1)
        case Err(s) => Err(s)
        case Ok(rest) => Ok(d.clusters[cluster][within..] + rest)
  }

  /** Whole clusters before an offset, and the rest of it. */
  function Whole(offset: nat, size: nat): nat
    requires size > 0
  {
    offset / size
  }

  function Rest(offset: nat, size: nat): (r: nat)
    requires size > 0
    ensures r < size
  {
    offset % size
  }

  /** Up to `bytes` bytes from `offset` on. */
  ghost function ReadAt(d: Disk, first: nat, size: nat, offset: nat, bytes: nat): Result<seq<Byte>>
    requires Formed(d)
  {
    if offset >= size then Ok([])
    else
      var n := if bytes > size - offset then size - offset else bytes;
      match SkipClusters(d, first, Whole(offset, 32 * d.slots))
      case Err(s) => Err(s)
      case Ok(cluster) => ReadChain(d, cluster, Rest(offset, 32 * d.slots), n, |d.fat| - 2)
  }

  ghost function ReadFile(d: Disk, path: seq<seq<Byte>>, room: nat): Result<seq<Byte>>
    requires Formed(d)
  {
    match LookupPath(d, path)
    case Err(s) => Err(s)
    case Ok(e) =>
      if e.dir then Err(IsDirectory)
      else if e.size > room then Err(Overflow)
      else ReadAt(d, e.first, e.size, 0, e.size)
  }

  // ---- directories are listed as written --------------------------------------------------------------

  lemma FollowsChain(d: Disk, ch: seq<nat>, i: nat)
    requires Formed(d) && IsChain(d, ch) && i < |ch|
    ensures InChain(ch[i]) && ch[i] < |d.fat|
    ensures i + 1 < |ch| ==> NextCluster(d, ch[i]) == ch[i + 1]
    ensures i + 1 == |ch| ==> !InChain(NextCluster(d, ch[i]))
  {
  }

  lemma {:induction false} ChainListed(d: Disk, ch: seq<nat>, i: nat, guard: nat, l: Lfn)
    requires Formed(d) && IsChain(d, ch) && i <= |ch| && guard >= |ch| - i && Within(d, ch[i..])
    ensures var cluster := if i < |ch| then ch[i] else EOC;
      var x := ListChain(d, cluster, guard, l);
      x.entries == ScanSlots(ChainSlots(d, ch[i..]), l).entries && x.end == NoEntry
    decreases |ch| - i
  {
    hide SlotsOf, ScanSlots, IsChain, Formed, Within;
    if i < |ch| {
      FollowsChain(d, ch, i);
      SizesAgree(d);
      FatLayouts.NextChainSlots(d, ch, i);
      var a := SlotsOf(d.clusters[ch[i]]);
      ScanConcat(a, ChainSlots(d, ch[i + 1..]), l);
      ChainListed(d, ch, i + 1, guard - 1, ScanSlots(a, l).lfn);
      if i + 1 == |ch| {
        EndsList(d, NextCluster(d, ch[i]), guard - 1, ScanSlots(a, l).lfn);
      }
    } else {
      assert ch[i..] == [];
      NothingScanned(d, l);
    }
  }

  lemma SizesAgree(d: Disk)
    requires Formed(d)
    ensures |d.clusters| == |d.fat| && |d.fat| >= 3 && d.slots >= 16
  {
  }

  lemma NothingScanned(d: Disk, l: Lfn)
    ensures Within(d, []) && ScanSlots(ChainSlots(d, []), l).entries == []
  {
  }

  lemma EndsList(d: Disk, c: nat, guard: nat, l: Lfn)
    requires Formed(d) && !InChain(c)
    ensures ListChain(d, c, guard, l) == ListChain(d, EOC, guard, l) == Listed([], NoEntry)
  {
  }

  lemma NodeChain(d: Disk, s: Store, k: nat)
    requires Stored(d, s) && k in s.nodes
    ensures Formed(d) && var ch := s.nodes[k].chain;
      IsChain(d, ch) && ch != [] && ch[0] == k && ch[0..] == ch && Within(d, ch) && |ch| <= |d.fat| - 2
  {
    NodeKept(d, s, k);
    StoredMeans(d, s);
    ChainsAreShort(d, s.nodes[k].chain);
    hide Stored, Holds;
  }

  lemma DirIs(s: Store, fs: Fs, dir: nat)
    requires FatLayouts.Represents(s, fs) && Closed(fs) && dir in fs.tree
    ensures FatLayouts.Represented(s, fs, dir) && dir in s.nodes && ValidRecs(fs.tree[dir])
  {
    assert FatLayouts.Represented(s, fs, dir);
  }

  lemma ListingIs(d: Disk, ch: seq<nat>, rs: seq<Rec>, room: nat)
    requires Formed(d) && IsChain(d, ch) && ch != [] && Within(d, ch) && |ch| <= |d.fat| - 2 && d.slots <= 2048
    requires ValidRecs(rs) && ChainSlots(d, ch) == RecsSlots(rs) + Unused(room)
    ensures Directory(d, ch[0]) == Listed(Listings(rs), NoEntry)
  {
    hide ListChain, ScanSlots, ChainSlots, RecsSlots, IsChain, Formed, Within, ValidRecs;
    assert ch[0..] == ch;
    ChainListed(d, ch, 0, |d.fat| - 2, NoName());
    DirectoryListed(rs, room, NoName());
  }

  /** A directory the writer built is listed entry for entry. */
  lemma DirectoryIs(d: Disk, s: Store, fs: Fs, dir: nat)
    requires Stored(d, s) && FatLayouts.Represents(s, fs) && Closed(fs) && dir in fs.tree && d.slots <= 2048
    ensures Formed(d) && Directory(d, dir) == Listed(Listings(fs.tree[dir]), NoEntry)
  {
    DirIs(s, fs, dir);
    hide *;
    NodeChain(d, s, dir);
    var room := FatLayouts.DirSlots(d, s, fs, dir);
    ListingIs(d, s.nodes[dir].chain, fs.tree[dir], room);
  }

  // ---- paths lead where they lead in the model -----------------------------------------------------------

  lemma {:induction false} FirstListing(rs: seq<Rec>, name: seq<Byte>)
    ensures FirstEntry(Listings(rs), name) ==
      match FirstNamed(rs, name)
      case Some(r) => Some(Listing(r))
      case None => None
  {
    hide Listing;
    if rs != [] {
      FirstListing(rs[1..], name);
      assert Listings(rs)[1..] == Listings(rs[1..]);
    }
  }

  lemma ListingLeads(r: Rec)
    ensures Listing(r).dir == IsDir(r) && Listing(r).first == r.first && (r.Named? ==> Listing(r).size == r.size)
  {
  }

  predicate Fitting(path: seq<seq<Byte>>) {
    forall i :: 0 <= i < |path| ==> |path[i]| < NAME_MAX
  }

  /** One component is found, or not, as in the model. */
  lemma SearchIs(d: Disk, s: Store, fs: Fs, dir: nat, name: seq<Byte>)
    requires Stored(d, s) && FatLayouts.Represents(s, fs) && Closed(fs) && dir in fs.tree && d.slots <= 2048
    requires |name| < NAME_MAX
    ensures Formed(d)
    ensures match FirstNamed(fs.tree[dir], name)
      case Some(r) => Search(d, dir, name) == Ok(Listing(r)) && r in fs.tree[dir] && Leads(fs, r)
      case None => Search(d, dir, name) == Err(NoEntry)
  {
    DirectoryIs(d, s, fs, dir);
    hide Stored, FatLayouts.Represents, Directory, Formed, Listing, Leads;
    FirstListing(fs.tree[dir], name);
    FirstNamedIn(fs.tree[dir], name);
    assert Component(name) == name;
  }

  lemma {:induction false} LookupIs(d: Disk, s: Store, fs: Fs, dir: nat, path: seq<seq<Byte>>, depth: nat)
    requires Stored(d, s) && FatLayouts.Represents(s, fs) && Closed(fs) && dir in fs.tree && d.slots <= 2048
    requires path != [] && Fitting(path) && depth + |path| <= MAX_DEPTH + 1
    ensures Formed(d)
    ensures match Lookup(fs, dir, path)
      case Some(r) => LookupFrom(d, dir, path, depth) == Ok(Listing(r))
      case None => LookupFrom(d, dir, path, depth).Err?
    decreases |path|
  {
    hide Stored, FatLayouts.Represents, Search, Formed, Closed, Listing, FirstNamed;
    SearchIs(d, s, fs, dir, path[0]);
    if r: Rec :| FirstNamed(fs.tree[dir], path[0]) == Some(r) {
      ListingLeads(r);
      if |path| > 1 && IsDir(r) {
        LookupIs(d, s, fs, r.first, path[1..], depth + 1);
      }
    }
  }

  // ---- contents are read as written --------------------------------------------------------------------------

  lemma {:induction false} ChainRead(d: Disk, ch: seq<nat>, i: nat, within: nat, need: nat, guard: nat)
    requires Formed(d) && IsChain(d, ch) && i < |ch| && guard >= |ch| - i && Within(d, ch[i..]) && within < 32 * d.slots
    requires within + need <= |ChainData(d, ch[i..])|
    ensures ReadChain(d, ch[i], within, need, guard) == Ok(ChainData(d, ch[i..])[within..within + need])
    decreases |ch| - i
  {
    FollowsChain(d, ch, i);
    var size := 32 * d.slots;
    var here := d.clusters[ch[i]];
    NextChainData(d, ch, i);
    assert |here| == size;
    var all, rest := ChainData(d, ch[i..]), ChainData(d, ch[i + 1..]);
    hide IsChain, ChainData, Formed, Within;
    if need == 0 {
      assert all[within..within] == [];
    } else if need <= size - within {
      WindowOfTwo(here, rest, within, need);
    } else {
      assert |rest| > 0;
      if i + 1 == |ch| {
        NoData(d, ch);
      }
      ChainRead(d, ch, i + 1, 0, need - (size - within), guard - 1);
      WindowOfTwo(here, rest, within, need);
    }
  }

  /** A window of two pieces lies in the first, or takes the rest of it and the start of the second. */
  lemma WindowOfTwo(a: seq<Byte>, b: seq<Byte>, from: nat, n: nat)
    requires from <= |a| && from + n <= |a + b|
    ensures (a + b)[from..from + n] == if n <= |a| - from then a[from..from + n] else a[from..] + b[0..n - (|a| - from)]
  {
  }

  lemma NoData(d: Disk, ch: seq<nat>)
    ensures Within(d, ch[|ch|..]) && ChainData(d, ch[|ch|..]) == []
  {
    assert ch[|ch|..] == [];
  }

  lemma NextChainData(d: Disk, ch: seq<nat>, i: nat)
    requires i < |ch| && Within(d, ch[i..]) && ch[i] < |d.clusters|
    ensures Within(d, ch[i + 1..]) && ChainData(d, ch[i..]) == d.clusters[ch[i]] + ChainData(d, ch[i + 1..])
  {
    var s := ch[i..];
    assert s[0] == ch[i] && s[1..] == ch[i + 1..];
    assert Within(d, s[1..]);
  }

  /** Skipping whole clusters and reading from within the next is reading at the offset. */
  lemma {:induction false} OffsetRead(d: Disk, ch: seq<nat>, i: nat, offset: nat, need: nat)
    requires Formed(d) && IsChain(d, ch) && i < |ch| && Within(d, ch[i..])
    requires 0 < need && offset + need <= |ChainData(d, ch[i..])|
    ensures var size := 32 * d.slots; var c := SkipClusters(d, ch[i], Whole(offset, size));
      c.Ok? && ReadChain(d, c.value, Rest(offset, size), need, |d.fat| - 2) == Ok(ChainData(d, ch[i..])[offset..offset + need])
    decreases |ch| - i
  {
    var size := 32 * d.slots;
    FollowsChain(d, ch, i);
    NextChainData(d, ch, i);
    ChainsAreShort(d, ch);
    assert |d.clusters[ch[i]]| == size;
    if offset < size {
      SmallOffset(offset, size);
      hide IsChain, ChainData, Formed, Within, ReadChain, Whole, Rest;
      ChainRead(d, ch, i, offset, need, |d.fat| - 2);
    } else {
      LargeOffset(offset, size);
      hide IsChain, ChainData, Formed, ReadChain, Within, Whole, Rest;
      if i + 1 == |ch| {
        NoData(d, ch);
      }
      OffsetRead(d, ch, i + 1, offset - size, need);
      var all, rest := ChainData(d, ch[i..]), ChainData(d, ch[i + 1..]);
      assert all[offset..offset + need] == rest[offset - size..offset - size + need];
    }
  }

  lemma SmallOffset(offset: nat, size: nat)
    requires offset < size
    ensures Whole(offset, size) == 0 && Rest(offset, size) == offset
  {
    DivUnique(offset, size, 0, offset);
  }

  lemma LargeOffset(offset: nat, size: nat)
    requires 0 < size <= offset
    ensures Whole(offset, size) == Whole(offset - size, size) + 1 && Rest(offset, size) == Rest(offset - size, size)
  {
    DivStep(offset - size, size);
    var q := (offset - size) / size;
    assert size * (q + 1) == size * q + size;
    assert offset == size * (offset / size) + offset % size;
    assert offset - size == size * q + (offset - size) % size;
  }

  lemma FileHolds(d: Disk, s: Store, k: nat)
    requires Stored(d, s) && k in s.nodes && s.nodes[k].FileNode?
    ensures Within(d, s.nodes[k].chain) && s.nodes[k].data <= ChainData(d, s.nodes[k].chain)
  {
    NodeKept(d, s, k);
    hide Stored, ChainData;
  }

  /** Reading inside a file the writer built. */
  lemma InsideIs(d: Disk, s: Store, k: nat, offset: nat, need: nat)
    requires Stored(d, s) && k in s.nodes && s.nodes[k].FileNode?
    requires offset < |s.nodes[k].data| && offset + need <= |s.nodes[k].data|
    ensures Formed(d) && var c := SkipClusters(d, k, Whole(offset, 32 * d.slots));
      c.Ok? && ReadChain(d, c.value, Rest(offset, 32 * d.slots), need, |d.fat| - 2) == Ok(s.nodes[k].data[offset..offset + need])
  {
    hide Stored, IsChain, ChainData, Formed, Within, Whole, Rest, SkipClusters, ReadChain;
    NodeChain(d, s, k);
    FileHolds(d, s, k);
    var all, data := ChainData(d, s.nodes[k].chain), s.nodes[k].data;
    if need == 0 {
      OffsetRead(d, s.nodes[k].chain, 0, offset, 1);
      NothingRead(d, SkipClusters(d, k, Whole(offset, 32 * d.slots)).value, Rest(offset, 32 * d.slots));
      assert data[offset..offset] == [];
    } else {
      OffsetRead(d, s.nodes[k].chain, 0, offset, need);
      assert all[offset..offset + need] == data[offset..offset + need];
    }
  }

  lemma NothingRead(d: Disk, c: nat, within: nat)
    requires Formed(d) && within < 32 * d.slots
    ensures ReadChain(d, c, within, 0, |d.fat| - 2) == Ok([])
  {
  }

  /** A file the writer built reads as its bytes, from any offset. */
  lemma ContentsAre(d: Disk, s: Store, k: nat, offset: nat, bytes: nat)
    requires Stored(d, s) && k in s.nodes && s.nodes[k].FileNode?
    ensures Formed(d) && ReadAt(d, k, |s.nodes[k].data|, offset, bytes) == Ok(Window(s.nodes[k].data, offset, bytes))
  {
    StoredMeans(d, s);
    hide Stored, Formed, Whole, Rest, SkipClusters, ReadChain, InChain;
    var data := s.nodes[k].data;
    if offset < |data| {
      var need := if bytes > |data| - offset then |data| - offset else bytes;
      WindowIs(data, offset, bytes, need);
      hide Window;
      InsideIs(d, s, k, offset, need);
      ReadAtIs(d, k, |data|, offset, bytes, need);
      hide ReadAt;
    }
  }

  lemma ReadAtIs(d: Disk, first: nat, size: nat, offset: nat, bytes: nat, need: nat)
    requires Formed(d) && offset < size && need == if bytes > size - offset then size - offset else bytes
    ensures d.slots > 0
    ensures var c := SkipClusters(d, first, Whole(offset, 32 * d.slots));
      ReadAt(d, first, size, offset, bytes) ==
        if c.Ok? then ReadChain(d, c.value, Rest(offset, 32 * d.slots), need, |d.fat| - 2) else Err(c.status)
  {
    SizesAgree(d);
    hide Whole, Rest, SkipClusters, ReadChain, Formed;
  }

  lemma WindowIs(data: seq<Byte>, offset: nat, bytes: nat, need: nat)
    requires offset < |data| && need == if bytes > |data| - offset then |data| - offset else bytes
    ensures Window(data, offset, bytes) == data[offset..offset + need]
  {
  }

  /** At most `bytes` bytes from `offset` on. */
  function Window(data: seq<Byte>, offset: nat, bytes: nat): seq<Byte> {
    if offset >= |data| then [] else if offset + bytes < |data| then data[offset..offset + bytes] else data[offset..]
  }

  // ---- agreement ---------------------------------------------------------------------------------------------

  /** Whatever the model says is at a path, the reader reads from the volume. */
  lemma ImageAgrees(d: Disk, s: Store, fs: Fs, path: seq<seq<Byte>>, room: nat)
    requires Stored(d, s) && FatLayouts.Represents(s, fs) && Closed(fs) && d.slots <= 2048
    requires Fitting(path) && |path| <= MAX_DEPTH + 1
    ensures Formed(d)
    ensures match ReadFs(fs, path)
      case Some(data) => ReadFile(d, path, room) == if |data| <= room then Ok(data) else Err(Overflow)
      case None => ReadFile(d, path, room).Err?
  {
    StoredMeans(d, s);
    if path != [] {
      hide Stored, Formed, LookupFrom, ReadAt, FatLayouts.Represents;
      LookupIs(d, s, fs, ROOT, path, 0);
      if r: Rec :| Lookup(fs, ROOT, path) == Some(r) {
        ListingLeads(r);
        FoundLeads(fs, ROOT, path);
        hide Listing, Lookup, Closed;
        if !IsDir(r) {
          ReadIs(d, s, fs, r);
        }
      }
    }
  }

  lemma {:induction false} FoundLeads(fs: Fs, dir: nat, path: seq<seq<Byte>>)
    requires Closed(fs) && Lookup(fs, dir, path).Some?
    ensures Leads(fs, Lookup(fs, dir, path).value)
    decreases |path|
  {
    FirstNamedIn(fs.tree[dir], path[0]);
    var r := FirstNamed(fs.tree[dir], path[0]).value;
    assert Leads(fs, r);
    if |path| > 1 {
      FoundLeads(fs, r.first, path[1..]);
    }
  }

  lemma FileIs(s: Store, fs: Fs, k: nat)
    requires FatLayouts.Represents(s, fs) && k in fs.files
    ensures k in s.nodes && s.nodes[k].FileNode? && s.nodes[k].data == fs.files[k]
  {
    assert FatLayouts.Represented(s, fs, k);
  }

  lemma ReadIs(d: Disk, s: Store, fs: Fs, r: Rec)
    requires Stored(d, s) && FatLayouts.Represents(s, fs) && !IsDir(r) && Leads(fs, r)
    ensures Formed(d) && Contents(fs, r).Some? && |Contents(fs, r).value| == r.size
    ensures ReadAt(d, r.first, r.size, 0, r.size) == Ok(Contents(fs, r).value)
  {
    StoredMeans(d, s);
    hide Stored, Formed, FatLayouts.Represents;
    if r.size > 0 {
      hide ReadAt;
      FileIs(s, fs, r.first);
      ContentsAre(d, s, r.first, 0, r.size);
      assert fs.files[r.first][0..] == fs.files[r.first];
    }
  }

  /** Reads that follow one another join up. */
  lemma WindowsJoin(data: seq<Byte>, offset: nat, m: nat, n: nat)
    ensures var a := Window(data, offset, m);
      a + Window(data, offset + |a|, n) == Window(data, offset, m + n) || |a| < m
  {
  }

  /** Write/read agreement on the image: after any session of the builder, every file written
      under a new name at a depth the reader follows reads back exactly as written. */
  lemma SessionAgrees(d: Disk, s: Store, states: seq<Fs>, ops: seq<FatAgreement.Op>, i: nat, j: nat, room: nat)
    requires FatAgreement.Runs(states, ops) && i < |ops| && i < j < |states|
    requires FatAgreement.IsNew(states[i], ops[i], states[i + 1])
    requires Stored(d, s) && FatLayouts.Represents(s, states[j]) && d.slots <= 2048
    requires |ops[i].dirs| <= MAX_DEPTH && |ops[i].data| <= room
    ensures Formed(d) && ReadFile(d, ops[i].dirs + [ops[i].name], room) == Ok(ops[i].data)
  {
    var path := ops[i].dirs + [ops[i].name];
    assert FatAgreement.Proper(ops[i]);
    NamesFit(ops[i]);
    FatAgreement.RunsStaySound(states, ops, j);
    FatAgreement.EveryNewFileIsRead(states, ops, i, j);
    hide Stored, FatLayouts.Represents, FatAgreement.Runs, FatAgreement.IsNew, Closed, Small, LegalDirs, ReadFile, ReadFs, Fitting;
    ImageAgrees(d, s, states[j], path, room);
  }

  lemma NamesFit(op: FatAgreement.Op)
    requires op.WriteFile? && FatAgreement.Proper(op)
    ensures Fitting(op.dirs + [op.name])
  {
    var path := op.dirs + [op.name];
    forall i | 0 <= i < |path| ensures |path[i]| < NAME_MAX {
      assert i < |op.dirs| ==> path[i] in op.dirs;
    }
  }

  /** The same for path strings: the string given to the builder is the one to give the driver. */
  lemma PathAgrees(d: Disk, s: Store, states: seq<Fs>, ops: seq<FatAgreement.Op>, i: nat, j: nat, room: nat, path: seq<Byte>)
    requires FatAgreement.Runs(states, ops) && i < |ops| && i < j < |states|
    requires FatAgreement.IsNew(states[i], ops[i], states[i + 1])
    requires Stored(d, s) && FatLayouts.Represents(s, states[j]) && d.slots <= 2048
    requires |ops[i].dirs| <= MAX_DEPTH && |ops[i].data| <= room
    requires ops[i].dirs == FatPaths.MkdirParts(FatPaths.FileParent(path)) && ops[i].name == FatPaths.FileName(path)
    ensures Formed(d) && ReadFile(d, FatPaths.Parts(path), room) == Ok(ops[i].data)
  {
    assert FatAgreement.Proper(ops[i]);
    hide *;
    NameIsThere(ops[i]);
    FatPaths.PathsAgree(path);
    SessionAgrees(d, s, states, ops, i, j, room);
  }

  lemma NameIsThere(op: FatAgreement.Op)
    requires op.WriteFile? && FatAgreement.Proper(op)
    ensures op.name != []
  {
  }
}
