/** Laying nodes out on a volume: where the slots of a directory lie, how the search for free
    ones goes, how new chains become nodes, and what the file system of the model has to do with
    the nodes in the store. */
module FatLayouts {
  import opened Words
  import opened Arithmetic
  import opened Options
  import opened Bits
  import opened FatNames
  import opened FatDirectories
  import opened FatDisks
  import opened FatModel

  /** How many clusters `size` bytes take; at least one. */
  function ClustersFor(size: nat, bytes: nat): (n: nat)
    requires bytes > 0
    ensures n >= 1
    decreases size
  {
    if size <= bytes then 1 else 1 + ClustersFor(size - bytes, bytes)
  }

  /** The writer's rounding. */
  lemma {:induction false} ClustersForIs(size: nat, bytes: nat)
    requires bytes > 0
    ensures var q := (size + bytes - 1) / bytes; ClustersFor(size, bytes) == if q > 1 then q else 1
    decreases size
  {
    if size <= bytes {
      if size == 0 {
        DivUnique(bytes - 1, bytes, 0, bytes - 1);
      } else {
        DivUnique(size + bytes - 1, bytes, 1, size - 1);
      }
    } else {
      ClustersForIs(size - bytes, bytes);
      DivStep(size - bytes + bytes - 1, bytes);
      if size - bytes <= bytes {
        DivUnique(size - bytes + bytes - 1, bytes, 1, size - bytes - 1);
      }
    }
  }

  lemma SplitAt<T>(s: seq<T>, i: nat)
    requires i < |s|
    ensures s == s[..i] + ([s[i]] + s[i + 1..]) && s == s[..i + 1] + s[i + 1..] && s[..i + 1] == s[..i] + [s[i]]
  {
  }

  lemma SlotsSplit(d: Disk, ch: seq<nat>, i: nat)
    requires Formed(d) && Within(d, ch) && i < |ch|
    ensures Within(d, ch[..i]) && Within(d, ch[i + 1..]) && |SlotsOf(d.clusters[ch[i]])| == d.slots
    ensures ChainSlots(d, ch) == ChainSlots(d, ch[..i]) + (SlotsOf(d.clusters[ch[i]]) + ChainSlots(d, ch[i + 1..]))
  {
    SplitAt(ch, i);
    OnePlaced(d, ch[i]);
    SlotsOfCluster(d.clusters[ch[i]], d.slots);
    hide SlotsOf, ChainSlots, Formed;
    ChainConcat(d, [ch[i]], ch[i + 1..]);
    ChainConcat(d, ch[..i], [ch[i]] + ch[i + 1..]);
  }

  lemma PlacesSplit(d: Disk, ch: seq<nat>, i: nat)
    requires Formed(d) && Within(d, ch) && i < |ch|
    ensures Within(d, ch[..i]) && |Places(ch[..i], d.slots)| == |ChainSlots(d, ch[..i])|
    ensures Places(ch[..i + 1], d.slots) == Places(ch[..i], d.slots) + ClusterPlaces(ch[i], 0, d.slots)
    ensures Places(ch, d.slots) == Places(ch[..i + 1], d.slots) + Places(ch[i + 1..], d.slots)
  {
    SplitAt(ch, i);
    OnePlaced(d, ch[i]);
    PlacesMatchSlots(d, ch[..i]);
    hide Places, ClusterPlaces, ChainSlots;
    PlacesConcat(ch[..i], [ch[i]], d.slots);
    PlacesConcat(ch[..i + 1], ch[i + 1..], d.slots);
  }

  lemma OnePlaced(d: Disk, c: nat)
    requires c < |d.clusters|
    ensures ChainSlots(d, [c]) == SlotsOf(d.clusters[c]) && Places([c], d.slots) == ClusterPlaces(c, 0, d.slots)
  {
    assert ChainSlots(d, [c]) == SlotsOf(d.clusters[c]) + ChainSlots(d, []);
    assert Places([c], d.slots) == ClusterPlaces(c, 0, d.slots) + Places([], d.slots);
  }

  /** Everything from `next` on is free. */
  lemma FreeAhead(d: Disk, s: Store)
    requires Stored(d, s)
    ensures 16 <= d.slots && |d.fat| == |d.clusters| && 3 <= s.next <= |d.fat| < EOC
    ensures forall c :: s.next <= c < |d.fat| ==> d.fat[c] == 0 && d.clusters[c] == Zeros(32 * d.slots)
    ensures forall c :: 0 <= c < |d.clusters| ==> |d.clusters[c]| == 32 * d.slots
  {
  }

  // ---- the search for free slots, on values ----------------------------------------------------

  ghost predicate UsedThenFree(s: seq<Slot>, used: nat) {
    forall j :: 0 <= j < |s| ==> if j < used then s[j][0] != 0 && s[j][0] != 0xE5 else s[j][0] == 0
  }

  /** What one cluster, `used` of whose slots are taken, adds to the places found before. */
  ghost predicate Collected(cluster: nat, per: nat, used: nat, wasEnded: bool, before: seq<(nat, nat)>, places: seq<(nat, nat)>, ended: bool) {
    && (ended <==> wasEnded || used < per)
    && (ended ==> places == before + ClusterPlaces(cluster, if used < per then used else per, per))
    && (!ended ==> places == [])
  }

  /** The search has come to cluster `i` of the directory's chain. */
  ghost predicate Searching(n: Node, per: nat, i: nat, places: seq<(nat, nat)>, ended: bool) {
    && n.DirNode? && i <= |n.chain|
    && (if ended then |n.slots| <= |Places(n.chain[..i], per)| && places == Places(n.chain[..i], per)[|n.slots|..]
        else |Places(n.chain[..i], per)| <= |n.slots| && places == [])
  }

  ghost function UsedHere(n: Node, per: nat, i: nat): nat
    requires n.DirNode? && i < |n.chain|
  {
    var base := |Places(n.chain[..i], per)|;
    if base < |n.slots| then |n.slots| - base else 0
  }

  /** The places right behind the entries in use. */
  ghost predicate Room(n: Node, per: nat, places: seq<(nat, nat)>) {
    && n.DirNode? && |n.slots| + |places| <= |Places(n.chain, per)|
    && places == Places(n.chain, per)[|n.slots|..|n.slots| + |places|]
  }

  lemma SearchStarts(n: Node, per: nat)
    requires n.DirNode?
    ensures Searching(n, per, 0, [], false)
  {
    assert n.chain[..0] == [];
  }

  /** Nothing but the chain of directory `dir` has changed. */
  ghost predicate OnlyGrew(before: map<nat, Node>, after: map<nat, Node>, dir: nat) {
    && dir in before && before[dir].DirNode? && dir in after
    && after == before[dir := DirNode(after[dir].chain, before[dir].slots)]
  }

  lemma GrewTwice(a: map<nat, Node>, b: map<nat, Node>, c: map<nat, Node>, dir: nat)
    requires OnlyGrew(a, b, dir) && OnlyGrew(b, c, dir)
    ensures OnlyGrew(a, c, dir)
  {
  }

  lemma NotGrown(a: map<nat, Node>, dir: nat)
    requires dir in a && a[dir].DirNode?
    ensures OnlyGrew(a, a, dir)
  {
  }

  lemma IsDirectoryNode(n: Node, per: nat, i: nat, places: seq<(nat, nat)>, ended: bool)
    requires Searching(n, per, i, places, ended)
    ensures n.DirNode?
  {
  }

  lemma SearchMeans(n: Node, per: nat, i: nat, places: seq<(nat, nat)>, ended: bool)
    requires Searching(n, per, i, places, ended) && i < |n.chain|
    ensures n.DirNode? && if ended then UsedHere(n, per, i) == 0 else places == []
  {
  }

  lemma SearchStep(n: Node, per: nat, i: nat, before: seq<(nat, nat)>, wasEnded: bool, places: seq<(nat, nat)>, ended: bool)
    requires per > 0 && Searching(n, per, i, before, wasEnded) && i < |n.chain|
    requires Places(n.chain[..i + 1], per) == Places(n.chain[..i], per) + ClusterPlaces(n.chain[i], 0, per)
    requires Collected(n.chain[i], per, UsedHere(n, per, i), wasEnded, before, places, ended)
    ensures Searching(n, per, i + 1, places, ended)
    ensures wasEnded ==> ended && |places| > |before|
    ensures (!ended ==> places == []) && (!wasEnded ==> before == [])
  {
    var here := UsedHere(n, per, i);
    var a, b := Places(n.chain[..i], per), ClusterPlaces(n.chain[i], 0, per);
    ClusterPlacesFrom(n.chain[i], 0, if here < per then here else per, per);
    hide Places, ClusterPlaces;
    if wasEnded {
      assert (a + b)[|n.slots|..] == a[|n.slots|..] + b;
    } else if ended {
      assert (a + b)[|n.slots|..] == b[|n.slots| - |a|..];
    }
  }

  lemma ExtendStep(n: Node, per: nat, i: nat, places: seq<(nat, nat)>, ended: bool, added: nat)
    requires Searching(n, per, i + 1, places, ended) && i == |n.chain| - 1 && |n.slots| <= |Places(n.chain, per)|
    ensures Searching(DirNode(n.chain + [added], n.slots), per, i + 1, places, true)
  {
    assert (n.chain + [added])[..i + 1] == n.chain && n.chain[..i + 1] == n.chain;
    hide Places;
  }

  lemma SearchDone(n: Node, per: nat, i: nat, places: seq<(nat, nat)>, ended: bool)
    requires Searching(n, per, i, places, ended) && places != []
    ensures Room(n, per, places)
  {
    PlacesPrefix(n.chain, i, per);
    hide Places;
  }

  lemma {:induction false} Increasing(chain: seq<nat>, i: nat, j: nat)
    requires forall i :: 0 <= i < |chain| - 1 ==> chain[i] < chain[i + 1]
    requires i < j < |chain|
    ensures chain[i] < chain[j]
    decreases j
  {
    if i + 1 < j {
      Increasing(chain, i, j - 1);
    }
    assert chain[j - 1] < chain[j - 1 + 1];
  }

  lemma ChainIsWithin(d: Disk, ch: seq<nat>)
    requires IsChain(d, ch) && |d.fat| == |d.clusters|
    ensures Within(d, ch) && ch != []
  {
  }

  lemma ChainUnlinked(d: Disk, e: Disk, ch: seq<nat>)
    requires IsChain(e, ch) && d.fat == e.fat
    ensures IsChain(d, ch)
  {
  }

  lemma IsLoose(s: Store, ch: seq<nat>, i: nat)
    requires AllLoose(s, ch) && i < |ch|
    ensures Loose(s, ch[i])
  {
  }

  lemma NothingWritten(d: Disk)
    ensures Within(d, []) && ChainData(d, []) == []
  {
  }

  lemma NextWritten(d: Disk, ch: seq<nat>, i: nat, block: seq<Byte>)
    requires IsChain(d, ch) && Within(d, ch) && i < |ch|
    ensures var e := d.(clusters := d.clusters[ch[i] := block]);
      Within(d, ch[..i]) && Within(e, ch[..i + 1]) && ChainData(e, ch[..i + 1]) == ChainData(d, ch[..i]) + block
  {
    var e := d.(clusters := d.clusters[ch[i] := block]);
    forall j | 0 <= j < i ensures ch[j] != ch[i] {
      ChainDistinct(d, ch, j, i);
    }
    SameContents(d, e, ch[..i]);
    assert ch[..i + 1] == ch[..i] + [ch[i]];
    ChainConcat(e, ch[..i], [ch[i]]);
    assert ChainData(e, [ch[i]]) == e.clusters[ch[i]] + ChainData(e, []);
  }

  lemma DirFits(d: Disk, s: Store, k: nat)
    requires Stored(d, s) && k in s.nodes && s.nodes[k].DirNode?
    ensures |s.nodes[k].slots| <= |Places(s.nodes[k].chain, d.slots)|
  {
    NodeKept(d, s, k);
    PlacesMatchSlots(d, s.nodes[k].chain);
    hide ChainSlots, Places;
  }

  lemma ChainEnds(d: Disk, s: Store, k: nat)
    requires Stored(d, s) && k in s.nodes
    ensures var ch := s.nodes[k].chain;
      ch != [] && ch[0] == k && ch[|ch| - 1] < s.next <= |d.fat| == |d.clusters| < EOC
  {
    NodeKept(d, s, k);
    StoredMeans(d, s);
    hide Stored, Holds;
  }

  /** Following the table follows the chain. */
  lemma ChainGoesOn(d: Disk, s: Store, k: nat, i: nat)
    requires Stored(d, s) && k in s.nodes && i < |s.nodes[k].chain|
    ensures var ch := s.nodes[k].chain;
      && 2 <= ch[i] < |d.fat| < EOC
      && (if i == |ch| - 1 then EOC <= d.fat[ch[i]] <= END_MARK else d.fat[ch[i]] == ch[i + 1] < EOC)
  {
    NodeKept(d, s, k);
    StoredMeans(d, s);
    hide Stored, Holds;
  }

  lemma PlacesPrefix(ch: seq<nat>, i: nat, n: nat)
    requires i <= |ch|
    ensures Places(ch[..i], n) <= Places(ch, n)
  {
    PlacesConcat(ch[..i], ch[i..], n);
    assert ch[..i] + ch[i..] == ch;
  }

  lemma {:induction false} ClusterPlacesFrom(c: nat, j: nat, k: nat, n: nat)
    requires j <= k <= n
    ensures ClusterPlaces(c, j, n)[k - j..] == ClusterPlaces(c, k, n)
    decreases k - j
  {
    if j < k {
      ClusterPlacesFrom(c, j + 1, k, n);
    }
  }

  /** In use before the last entry of a directory, unused after it. */
  lemma ClusterOfDir(d: Disk, owner: map<nat, nat>, n: Node, k: nat, i: nat)
    requires Formed(d) && n.DirNode? && Kept(d, owner, n, k) && i < |n.chain|
    ensures Within(d, n.chain) && Within(d, n.chain[..i]) && n.chain[i] < |d.clusters|
    ensures |SlotsOf(d.clusters[n.chain[i]])| == d.slots && |d.clusters[n.chain[i]]| == 32 * d.slots
    ensures UsedThenFree(SlotsOf(d.clusters[n.chain[i]]), UsedHere(n, d.slots, i))
  {
    var ch := n.chain;
    SlotsSplit(d, ch, i);
    PlacesSplit(d, ch, i);
    var all, a, s := ChainSlots(d, ch), ChainSlots(d, ch[..i]), SlotsOf(d.clusters[ch[i]]);
    var here := UsedHere(n, d.slots, i);
    hide SlotsOf, ChainSlots, Places;
    forall j | 0 <= j < d.slots
      ensures if j < here then s[j][0] != 0 && s[j][0] != 0xE5 else s[j][0] == 0
    {
      assert s[j] == all[|a| + j];
    }
  }

  /** A node of the model as it lies in the store. */
  ghost predicate Represented(s: Store, fs: Fs, k: nat) {
    && (k in fs.tree ==> k in s.nodes && s.nodes[k].DirNode? && ValidRecs(fs.tree[k]) && s.nodes[k].slots == RecsSlots(fs.tree[k]))
    && (k in fs.files ==> k in s.nodes && s.nodes[k].FileNode? && s.nodes[k].data == fs.files[k])
  }

  ghost predicate Represents(s: Store, fs: Fs) {
    forall k :: k in fs.tree || k in fs.files ==> Represented(s, fs, k)
  }

  function AdoptedStore(s: Store, n: Node): Store
    requires n.chain != []
  {
    s.(owner := Own(s.owner, n.chain, n.chain[0]), nodes := s.nodes[n.chain[0] := n])
  }

  ghost predicate InTheWay(fs: Fs, parts: seq<seq<Byte>>, k: nat, r: Rec, i: nat) {
    k in fs.tree && r in fs.tree[k] && !IsDir(r) && i < |parts| && Key83(r) == Upper(parts[i])
  }

  /** A file has the name of a directory that was asked for. */
  ghost predicate FileInTheWay(fs: Fs, parts: seq<seq<Byte>>) {
    exists k: nat, r: Rec, i: nat :: InTheWay(fs, parts, k, r, i)
  }

  lemma RecSlotsInUse(r: Rec)
    requires ValidRec(r)
    ensures InUse(RecSlots(r))
  {
    RecInUse(r);
    hide RecSlots;
    forall i | 0 <= i < |RecSlots(r)| ensures RecSlots(r)[i][0] != 0 && RecSlots(r)[i][0] != 0xE5 {
      assert RecSlots(r)[i] in RecSlots(r);
    }
  }

  lemma {:induction false} RecsSnoc(rs: seq<Rec>, r: Rec)
    requires ValidRecs(rs) && ValidRec(r)
    ensures ValidRecs(rs + [r]) && RecsSlots(rs + [r]) == RecsSlots(rs) + RecSlots(r)
  {
    hide RecSlots, ValidRec;
    if rs == [] {
      assert rs + [r] == [r] && [r][1..] == [];
      assert RecsSlots([r]) == RecSlots(r) + RecsSlots([]);
    } else {
      assert (rs + [r])[1..] == rs[1..] + [r];
      RecsSnoc(rs[1..], r);
    }
  }

  /** One node of the store and of the model changes. */
  lemma OneRepresented(s: Store, t: Store, fs: Fs, g: Fs, k: nat)
    requires Represents(s, fs) && Represented(t, g, k)
    requires k in t.nodes && t.nodes == s.nodes[k := t.nodes[k]]
    requires forall j :: j in g.tree && j != k ==> j in fs.tree && g.tree[j] == fs.tree[j]
    requires forall j :: j in g.files && j != k ==> j in fs.files && g.files[j] == fs.files[j]
    ensures Represents(t, g)
  {
    hide ValidRecs, RecsSlots;
    forall j | j in g.tree || j in g.files ensures Represented(t, g, j) {
      if j != k {
        assert Represented(s, fs, j);
      }
    }
  }

  lemma DirRepresented(n: Node, m: Node, s: Store, t: Store, fs: Fs, dir: nat, r: Rec, ok: bool)
    requires dir in fs.tree && ValidRec(r) && Represented(s, fs, dir) && dir in s.nodes && s.nodes[dir] == n
    requires dir in t.nodes && t.nodes[dir] == m && n.DirNode? && m.DirNode?
    requires m.slots == if ok then n.slots + RecSlots(r) else n.slots
    ensures Represented(t, if ok then Added(fs, dir, r) else fs, dir)
  {
    hide RecSlots, RecsSlots, ValidRec, ValidRecs;
    RecsSnoc(fs.tree[dir], r);
  }

  lemma EntryRepresented(s: Store, t: Store, fs: Fs, dir: nat, r: Rec, ok: bool)
    requires Represents(s, fs) && dir in fs.tree && ValidRec(r) && dir in s.nodes && s.nodes[dir].DirNode?
    requires dir in t.nodes && t.nodes == s.nodes[dir := t.nodes[dir]] && t.nodes[dir].DirNode?
    requires t.nodes[dir].slots == if ok then s.nodes[dir].slots + RecSlots(r) else s.nodes[dir].slots
    ensures Represents(t, if ok then Added(fs, dir, r) else fs)
  {
    assert Represented(s, fs, dir);
    hide RecSlots, ValidRec, Represents, Represented;
    DirRepresented(s.nodes[dir], t.nodes[dir], s, t, fs, dir, r, ok);
    OneRepresented(s, t, fs, if ok then Added(fs, dir, r) else fs, dir);
  }

  lemma SmallStays(fs: Fs, dir: nat, r: Rec)
    requires Small(fs) && dir in fs.tree
    ensures Small(Added(fs, dir, r))
  {
  }

  lemma ParentIsSmall(fs: Fs, parent: nat)
    requires Small(fs) && parent in fs.tree
    ensures parent < 0x1_0000_0000
  {
  }

  /** Giving out clusters changes no node. */
  lemma OnlyNext(s: Store, t: Store, fs: Fs)
    requires Represents(s, fs) && t.nodes == s.nodes
    ensures Represents(t, fs)
  {
    forall k | k in fs.tree || k in fs.files ensures Represented(t, fs, k) {
      assert Represented(s, fs, k);
    }
  }

  lemma KnownNodes(s: Store, fs: Fs)
    requires Represents(s, fs)
    ensures forall k :: k in fs.tree || k in fs.files ==> k in s.nodes
  {
    forall k | k in fs.tree || k in fs.files ensures k in s.nodes {
      assert Represented(s, fs, k);
    }
  }

  lemma FreshIsNew(d: Disk, s: Store, fs: Fs, c: nat)
    requires Stored(d, s) && Represents(s, fs) && Loose(s, c)
    ensures c !in s.nodes && c !in fs.tree && c !in fs.files
  {
    LooseIsNew(d, s, c);
    hide Stored;
    KnownNodes(s, fs);
  }

  lemma StartIsNew(d: Disk, s: Store, fs: Fs, chain: seq<nat>)
    requires Stored(d, s) && Represents(s, fs) && IsChain(d, chain) && AllLoose(s, chain)
    ensures chain != [] && chain[0] !in s.nodes && chain[0] !in fs.tree && chain[0] !in fs.files && chain[0] < EOC
  {
    StoredMeans(d, s);
    hide Stored;
    IsLoose(s, chain, 0);
    FreshIsNew(d, s, fs, chain[0]);
  }

  lemma SlotsCons(e: Slot, rest: seq<Byte>)
    ensures SlotsOf(e + rest) == [e] + SlotsOf(rest)
  {
    assert (e + rest)[..32] == e && (e + rest)[32..] == rest;
  }

  lemma DotSlots(c: nat, parent: nat, n: nat)
    requires n >= 2
    ensures var block := SlotOf(Dot(c)) + SlotOf(DotDot(parent)) + Zeros(32 * n - 64);
      |block| == 32 * n && SlotsOf(block) == [SlotOf(Dot(c)), SlotOf(DotDot(parent))] + Unused(n - 2)
  {
    hide SlotOf, SlotsOf;
    var a: seq<Byte>, b: seq<Byte>, z: seq<Byte> := SlotOf(Dot(c)), SlotOf(DotDot(parent)), Zeros(32 * n - 64);
    assert a + b + z == a + (b + z);
    SlotsCons(a, b + z);
    SlotsCons(b, z);
    assert 32 * n - 64 == 32 * (n - 2);
    ZeroClusterUnused(n - 2);
    assert [SlotOf(Dot(c))] + ([SlotOf(DotDot(parent))] + Unused(n - 2)) == [SlotOf(Dot(c)), SlotOf(DotDot(parent))] + Unused(n - 2);
  }

  lemma DotsAreValid(c: nat, parent: nat)
    requires c < 0x1_0000_0000 && parent < 0x1_0000_0000
    ensures ValidRecs([Dot(c), DotDot(parent)])
    ensures RecsSlots([Dot(c), DotDot(parent)]) == [SlotOf(Dot(c)), SlotOf(DotDot(parent))]
    ensures InUse([SlotOf(Dot(c)), SlotOf(DotDot(parent))])
  {
    var rs := [Dot(c), DotDot(parent)];
    assert rs[1..] == [DotDot(parent)] && rs[1..][1..] == [];
    SlotFields(Dot(c));
    SlotFields(DotDot(parent));
    hide SlotOf;
    assert RecsSlots(rs[1..]) == RecSlots(DotDot(parent)) + RecsSlots([]);
  }

  lemma OneCluster(d: Disk, c: nat)
    requires 2 <= c < |d.fat| == |d.clusters| && d.fat[c] == END_MARK
    ensures IsChain(d, [c]) && Within(d, [c]) && ChainSlots(d, [c]) == SlotsOf(d.clusters[c])
  {
    OnePlaced(d, c);
  }

  lemma DotsHeld(d: Disk, c: nat, parent: nat)
    requires 2 <= c < |d.fat| == |d.clusters| && d.fat[c] == END_MARK && c < 0x1_0000_0000 && parent < 0x1_0000_0000
    requires 2 <= d.slots && d.clusters[c] == SlotOf(Dot(c)) + SlotOf(DotDot(parent)) + Zeros(32 * d.slots - 64)
    ensures IsChain(d, [c]) && Within(d, [c]) && Holds(d, DirNode([c], [SlotOf(Dot(c)), SlotOf(DotDot(parent))]))
  {
    hide *;
    OneCluster(d, c);
    DotSlots(c, parent, d.slots);
    DotsAreValid(c, parent);
    EndsUnused(d, [c], [SlotOf(Dot(c)), SlotOf(DotDot(parent))], d.slots - 2);
  }

  lemma EndsUnused(d: Disk, ch: seq<nat>, slots: seq<Slot>, n: nat)
    requires Within(d, ch) && ChainSlots(d, ch) == slots + Unused(n) && InUse(slots)
    ensures Holds(d, DirNode(ch, slots))
  {
    hide ChainSlots, InUse, Unused, UnusedFrom;
    UnusedAtEnd(slots, n);
  }

  lemma UnusedAtEnd(slots: seq<Slot>, n: nat)
    ensures slots <= slots + Unused(n) && UnusedFrom(slots + Unused(n), |slots|)
  {
  }

  /** A loose chain that holds what a node should hold becomes that node. */
  lemma AdoptedRepresents(d: Disk, s: Store, fs: Fs, g: Fs, n: Node)
    requires Stored(d, s) && Represents(s, fs) && Formed(d) && IsChain(d, n.chain) && AllLoose(s, n.chain) && Holds(d, n)
    requires Represented(AdoptedStore(s, n), g, n.chain[0])
    requires forall j :: j in g.tree && j != n.chain[0] ==> j in fs.tree && g.tree[j] == fs.tree[j]
    requires forall j :: j in g.files && j != n.chain[0] ==> j in fs.files && g.files[j] == fs.files[j]
    ensures Stored(d, AdoptedStore(s, n)) && Represents(AdoptedStore(s, n), g)
  {
    Adopt(d, s, n);
    hide Stored, Represents, Represented, IsChain, AllLoose, Holds, Formed, Own;
    OneRepresented(s, AdoptedStore(s, n), fs, g, n.chain[0]);
  }

  /** The new directory's cluster becomes a node. */
  lemma DotsAdopted(d: Disk, s: Store, fs: Fs, c: nat, parent: nat)
    requires Stored(d, s) && Represents(s, fs) && Loose(s, c) && c < |d.fat| == |d.clusters| < EOC && d.fat[c] == END_MARK
    requires parent < 0x1_0000_0000 && 2 <= d.slots && c !in fs.tree && c !in fs.files
    requires d.clusters[c] == SlotOf(Dot(c)) + SlotOf(DotDot(parent)) + Zeros(32 * d.slots - 64)
    ensures var t := AdoptedStore(s, DirNode([c], [SlotOf(Dot(c)), SlotOf(DotDot(parent))]));
      Stored(d, t) && Represents(t, WithDir(fs, c, parent))
  {
    var n := DirNode([c], [SlotOf(Dot(c)), SlotOf(DotDot(parent))]);
    StoredMeans(d, s);
    DotsHeld(d, c, parent);
    DotsAreValid(c, parent);
    hide Stored, Represents, SlotOf, IsChain, Formed, RecsSlots, ValidRecs, Holds, Own;
    AdoptedRepresents(d, s, fs, WithDir(fs, c, parent), n);
  }

  /** The new file's clusters become a node. */
  lemma FileAdopted(d: Disk, s: Store, fs: Fs, chain: seq<nat>, data: seq<Byte>)
    requires Stored(d, s) && Represents(s, fs) && IsChain(d, chain) && AllLoose(s, chain) && Within(d, chain)
    requires Holds(d, FileNode(chain, data)) && chain != [] && chain[0] !in fs.tree && chain[0] !in fs.files
    ensures var t := AdoptedStore(s, FileNode(chain, data));
      Stored(d, t) && Represents(t, fs.(files := fs.files[chain[0] := data]))
  {
    StoredMeans(d, s);
    hide Stored, Represents, IsChain, Formed, RecsSlots, ValidRecs, Holds, AllLoose, Own;
    AdoptedRepresents(d, s, fs, fs.(files := fs.files[chain[0] := data]), FileNode(chain, data));
  }

  lemma FileKeeps(fs: Fs, start: nat, data: seq<Byte>)
    requires Closed(fs) && Small(fs) && start !in fs.files
    ensures var g := fs.(files := fs.files[start := data]); Closed(g) && Small(g)
  {
    var g := fs.(files := fs.files[start := data]);
    forall k, r | k in g.tree && r in g.tree[k] ensures Leads(g, r) {
      assert Leads(fs, r);
    }
  }

  lemma ShownAs(r: Rec)
    ensures ShortListing(r).dir == IsDir(r) && ShortListing(r).first == r.first
  {
  }

  lemma EntryLeads(fs: Fs, k: nat, r: Rec)
    requires Closed(fs) && k in fs.tree && r in fs.tree[k] && IsDir(r)
    ensures r.first in fs.tree
  {
    assert Leads(fs, r);
  }

  lemma DirIsKnown(before: Fs, c: nat, parent: nat, name: seq<Byte>)
    requires c < 0x1_0000_0000 && Nameable(name) && parent in before.tree
    ensures var g := WithDir(before, c, parent);
      parent in g.tree && ValidRec(Named(name, true, c, 0)) && Leads(g, Named(name, true, c, 0))
  {
  }

  lemma MadeNext(before: Fs, dir: nat, parts: seq<seq<Byte>>, c: nat)
    requires parts != [] && dir in before.tree && c !in before.tree && c < 0x1_0000_0000
    requires FindRec(before.tree[dir], Upper(parts[0])) == None
    ensures forall after, end :: Made(NewDir(before, dir, parts[0], c), c, parts[1..], after, end) ==> Made(before, dir, parts, after, end)
  {
    hide NewDir;
    forall after, end: nat | Made(NewDir(before, dir, parts[0], c), c, parts[1..], after, end)
      ensures Made(before, dir, parts, after, end)
    {
      assert MadeAt(before, dir, parts, c, after, end);
    }
  }

  lemma MadeEnds(fs: Fs, dir: nat, parts: seq<seq<Byte>>, after: Fs, end: nat)
    requires Closed(fs) && Small(fs) && AllNameable(parts) && Made(fs, dir, parts, after, end)
    ensures end in after.tree
  {
    MadeKeeps(fs, dir, parts, after, end);
  }

  lemma NodeIsWithin(d: Disk, s: Store, k: nat)
    requires Stored(d, s) && k in s.nodes
    ensures Within(d, s.nodes[k].chain) && Formed(d)
  {
    NodeKept(d, s, k);
  }

  lemma ClusterSize(d: Disk, c: nat)
    requires Formed(d) && c < |d.fat|
    ensures c < |d.clusters| && |d.clusters[c]| == 32 * d.slots
  {
  }

  /** The entries of the first `i` clusters of a directory have been listed. */
  ghost predicate Iterated(d: Disk, ch: seq<nat>, i: nat, entries: seq<DirEntry>) {
    && i <= |ch| && Within(d, ch) && Within(d, ch[i..])
    && entries + ShortScan(ChainSlots(d, ch[i..])).entries == ShortScan(ChainSlots(d, ch)).entries
  }

  lemma IterStarts(d: Disk, ch: seq<nat>)
    requires Within(d, ch)
    ensures Iterated(d, ch, 0, [])
  {
    hide ShortScan, ChainSlots;
    assert ch[0..] == ch;
    var all := ShortScan(ChainSlots(d, ch)).entries;
    assert [] + all == all;
  }

  lemma IterStep(d: Disk, ch: seq<nat>, i: nat, before: seq<DirEntry>, entries: seq<DirEntry>, stop: bool)
    requires Iterated(d, ch, i, before) && i < |ch| && ch[i] < |d.clusters|
    requires Shorts(entries, stop) == var s := ShortScan(SlotsOf(d.clusters[ch[i]])); Shorts(before + s.entries, s.stop)
    ensures stop ==> Within(d, ch) && entries == ShortScan(ChainSlots(d, ch)).entries
    ensures !stop ==> Iterated(d, ch, i + 1, entries)
  {
    hide ShortScan, SlotsOf, ChainSlots, Within;
    NextChainSlots(d, ch, i);
    var x, y := SlotsOf(d.clusters[ch[i]]), ChainSlots(d, ch[i + 1..]);
    ShortConcat(x, y);
    var a, b := ShortScan(x).entries, ShortScan(y).entries;
    assert before + (a + b) == before + a + b;
  }

  lemma NextChainSlots(d: Disk, ch: seq<nat>, i: nat)
    requires i < |ch| && Within(d, ch[i..]) && ch[i] < |d.clusters|
    ensures Within(d, ch[i + 1..])
    ensures ChainSlots(d, ch[i..]) == SlotsOf(d.clusters[ch[i]]) + ChainSlots(d, ch[i + 1..])
  {
    hide SlotsOf;
    var s := ch[i..];
    assert s[0] == ch[i] && s[1..] == ch[i + 1..];
    assert Within(d, s[1..]);
  }

  lemma IterEnds(d: Disk, ch: seq<nat>, entries: seq<DirEntry>)
    requires Iterated(d, ch, |ch|, entries)
    ensures Within(d, ch) && entries == ShortScan(ChainSlots(d, ch)).entries
  {
    assert ch[|ch|..] == [];
    assert ShortScan(ChainSlots(d, [])).entries == [];
    assert entries + [] == entries;
  }

  lemma UnusedTail(all: seq<Slot>, slots: seq<Slot>)
    requires slots <= all && UnusedFrom(all, |slots|)
    ensures all == slots + Unused(|all| - |slots|)
  {
  }

  /** The slots of a directory: its entries, then slots never used. */
  lemma DirSlots(d: Disk, s: Store, fs: Fs, dir: nat) returns (room: nat)
    requires Stored(d, s) && dir in fs.tree && Represented(s, fs, dir)
    ensures Within(d, s.nodes[dir].chain) && ChainSlots(d, s.nodes[dir].chain) == RecsSlots(fs.tree[dir]) + Unused(room)
  {
    NodeKept(d, s, dir);
    hide Stored, RecsSlots, IsChain, ChainSlots;
    var all := ChainSlots(d, s.nodes[dir].chain);
    room := |all| - |RecsSlots(fs.tree[dir])|;
    UnusedTail(all, RecsSlots(fs.tree[dir]));
  }

  /** What the search over the clusters of a directory finds. */
  lemma DirSearched(d: Disk, s: Store, fs: Fs, dir: nat, wanted: seq<Byte>)
    requires Stored(d, s) && dir in fs.tree && Represented(s, fs, dir)
    ensures Within(d, s.nodes[dir].chain)
    ensures FirstOf(ShortScan(ChainSlots(d, s.nodes[dir].chain)).entries, wanted) ==
      match FindRec(fs.tree[dir], wanted)
      case Some(r) => Some(ShortListing(r))
      case None => None
  {
    hide Stored, ShortScan, RecsSlots, FindRec, ShortListing, ChainSlots;
    var room := DirSlots(d, s, fs, dir);
    FindIsFirst(ChainSlots(d, s.nodes[dir].chain), wanted);
    DirectorySearched(fs.tree[dir], room, wanted);
  }

  lemma FormattedIsStored(d: Disk, entries: nat)
    requires 16 <= d.slots && 65527 <= entries < EOC && |d.fat| == |d.clusters| == entries
    requires forall c :: 0 <= c < entries ==> d.clusters[c] == Zeros(32 * d.slots)
    requires forall c :: 3 <= c < entries ==> d.fat[c] == 0
    requires d.fat[ROOT] == END_MARK
    ensures Stored(d, Store(3, map[ROOT := ROOT], map[ROOT := DirNode([ROOT], [])]))
  {
    ZeroClusterUnused(d.slots);
    assert ChainSlots(d, [ROOT]) == SlotsOf(d.clusters[ROOT]) + ChainSlots(d, []);
  }
}
