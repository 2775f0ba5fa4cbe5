/** The volume between writer and reader: clusters, the table that links them, and what is
    kept about the chains laid out in it. */
module FatDisks {
  import opened Words
  import opened Bits
  import opened FatNames
  import opened FatDirectories

  /** Any table entry from here on ends a chain. */
  const EOC: nat := 0x0FFF_FFF8
  const END_MARK: nat := 0x0FFF_FFFF
  const ROOT: nat := 2

  /** Clusters of `slots` directory entries, numbered like the table entries; 0 and 1 are not
      used. */
  datatype Disk = Disk(slots: nat, clusters: seq<seq<Byte>>, fat: seq<nat>)

  ghost predicate Formed(d: Disk) {
    && 16 <= d.slots && |d.clusters| == |d.fat| && 3 <= |d.fat| < EOC
    && (forall c :: 0 <= c < |d.clusters| ==> |d.clusters[c]| == 32 * d.slots)
  }

  /** The 32-byte entries of a cluster. */
  function SlotsOf(data: seq<Byte>): (s: seq<Slot>)
  {
    if |data| < 32 then [] else [data[..32]] + SlotsOf(data[32..])
  }

  lemma {:induction false} SlotsOfCluster(data: seq<Byte>, n: nat)
    requires |data| == 32 * n
    ensures |SlotsOf(data)| == n
    ensures forall j :: 0 <= j < n ==> SlotsOf(data)[j] == data[32 * j..32 * j + 32]
    decreases n
  {
    if n > 0 {
      SlotsOfCluster(data[32..], n - 1);
      forall j | 0 <= j < n ensures SlotsOf(data)[j] == data[32 * j..32 * j + 32] {
        if j > 0 {
          assert data[32..][32 * (j - 1)..32 * (j - 1) + 32] == data[32 * j..32 * j + 32];
        }
      }
    }
  }

  // ---- chains ---------------------------------------------------------------------------------

  /** Every link goes to a strictly larger cluster. */
  ghost predicate IsChain(d: Disk, ch: seq<nat>) {
    && ch != []
    && (forall i :: 0 <= i < |ch| ==> 2 <= ch[i] < |d.fat|)
    && (forall i :: 0 <= i < |ch| - 1 ==> ch[i] < ch[i + 1] == d.fat[ch[i]])
    && EOC <= d.fat[ch[|ch| - 1]] <= END_MARK
  }

  lemma {:induction false} ChainGrows(d: Disk, ch: seq<nat>, i: nat, j: nat)
    requires IsChain(d, ch) && i <= j < |ch|
    ensures ch[i] + (j - i) <= ch[j]
    decreases j
  {
    if i < j {
      ChainGrows(d, ch, i, j - 1);
      assert ch[j - 1] < ch[j - 1 + 1];
    }
  }

  /** So a walk of a chain ends within the number of clusters. */
  lemma ChainsAreShort(d: Disk, ch: seq<nat>)
    requires IsChain(d, ch)
    ensures |ch| <= |d.fat| - 2
  {
    ChainGrows(d, ch, 0, |ch| - 1);
  }

  lemma ChainDistinct(d: Disk, ch: seq<nat>, i: nat, j: nat)
    requires IsChain(d, ch) && i < j < |ch|
    ensures ch[i] < ch[j]
  {
    ChainGrows(d, ch, i, j);
  }

  predicate Within(d: Disk, ch: seq<nat>) {
    forall i :: 0 <= i < |ch| ==> ch[i] < |d.clusters|
  }

  function ChainData(d: Disk, ch: seq<nat>): seq<Byte>
    requires Within(d, ch)
  {
    if ch == [] then [] else d.clusters[ch[0]] + ChainData(d, ch[1..])
  }

  function ChainSlots(d: Disk, ch: seq<nat>): seq<Slot>
    requires Within(d, ch)
  {
    if ch == [] then [] else SlotsOf(d.clusters[ch[0]]) + ChainSlots(d, ch[1..])
  }

  lemma {:induction false} SameContents(d: Disk, e: Disk, ch: seq<nat>)
    requires Within(d, ch) && Within(e, ch)
    requires forall i :: 0 <= i < |ch| ==> d.clusters[ch[i]] == e.clusters[ch[i]]
    ensures ChainData(d, ch) == ChainData(e, ch) && ChainSlots(d, ch) == ChainSlots(e, ch)
  {
    if ch != [] {
      SameContents(d, e, ch[1..]);
    }
  }

  lemma {:induction false} ChainConcat(d: Disk, a: seq<nat>, b: seq<nat>)
    requires Within(d, a) && Within(d, b)
    ensures Within(d, a + b)
    ensures ChainData(d, a + b) == ChainData(d, a) + ChainData(d, b)
    ensures ChainSlots(d, a + b) == ChainSlots(d, a) + ChainSlots(d, b)
    decreases |a|
  {
    if a == [] {
      assert a + b == b;
    } else {
      assert (a + b)[1..] == a[1..] + b;
      ChainConcat(d, a[1..], b);
    }
  }

  // ---- what is kept ---------------------------------------------------------------------------

  /** What a chain holds: the entries of a directory or the bytes of a file. */
  datatype Node =
    | DirNode(chain: seq<nat>, slots: seq<Slot>)
    | FileNode(chain: seq<nat>, data: seq<Byte>)

  /** The nodes by first cluster, and the first cluster of the chain a cluster is in. */
  datatype Store = Store(next: nat, owner: map<nat, nat>, nodes: map<nat, Node>)

  ghost predicate UnusedFrom(s: seq<Slot>, n: nat) {
    n <= |s| && forall i :: n <= i < |s| ==> s[i] == Zeros(32)
  }

  ghost predicate ZeroFrom(s: seq<Byte>, n: nat) {
    n <= |s| && forall i :: n <= i < |s| ==> s[i] == 0
  }

  ghost predicate InUse(s: seq<Slot>) {
    forall i :: 0 <= i < |s| ==> s[i][0] != 0 && s[i][0] != 0xE5
  }

  /** No cluster is in two chains: it has one owner. */
  ghost predicate Owned(owner: map<nat, nat>, ch: seq<nat>, k: nat) {
    forall i :: 0 <= i < |ch| ==> ch[i] in owner && owner[ch[i]] == k
  }

  ghost predicate Holds(d: Disk, n: Node)
    requires Within(d, n.chain)
  {
    match n
    case DirNode(ch, slots) => slots <= ChainSlots(d, ch) && UnusedFrom(ChainSlots(d, ch), |slots|) && InUse(slots)
    case FileNode(ch, data) => data <= ChainData(d, ch) && ZeroFrom(ChainData(d, ch), |data|)
  }

  /** What is kept of one node. */
  ghost predicate Kept(d: Disk, owner: map<nat, nat>, n: Node, k: nat)
    requires Formed(d)
  {
    IsChain(d, n.chain) && n.chain[0] == k && Owned(owner, n.chain, k) && Holds(d, n)
  }

  ghost predicate AllKept(d: Disk, s: Store)
    requires Formed(d)
  {
    forall k :: k in s.nodes ==> Kept(d, s.owner, s.nodes[k], k)
  }

  /** Clusters from `next` on are free and zero. */
  ghost predicate Free(d: Disk, next: nat)
    requires Formed(d)
  {
    forall c :: next <= c < |d.fat| ==> d.fat[c] == 0 && d.clusters[c] == Zeros(32 * d.slots)
  }

  ghost predicate Below(owner: map<nat, nat>, next: nat) {
    forall c :: c in owner ==> 2 <= c < next
  }

  ghost predicate Stored(d: Disk, s: Store) {
    && Formed(d) && 3 <= s.next <= |d.fat|
    && Below(s.owner, s.next) && AllKept(d, s) && Free(d, s.next)
  }

  /** A cluster given out but in no chain yet. */
  ghost predicate Loose(s: Store, c: nat) {
    2 <= c < s.next && c !in s.owner
  }

  // ---- steps that keep it -----------------------------------------------------------------------

  /** The clusters of chain `k` are as they were. */
  ghost predicate Agrees(d: Disk, e: Disk, owner: map<nat, nat>, k: nat)
    requires Formed(d) && Formed(e)
  {
    && |e.fat| == |d.fat| && e.slots == d.slots
    && forall c :: 0 <= c < |d.fat| && c in owner && owner[c] == k ==>
         e.fat[c] == d.fat[c] && e.clusters[c] == d.clusters[c]
  }

  /** Nothing a chain depends on has changed. */
  lemma KeepOne(d: Disk, e: Disk, before: map<nat, nat>, after: map<nat, nat>, n: Node, k: nat)
    requires Formed(d) && Formed(e) && Kept(d, before, n, k) && Agrees(d, e, before, k)
    requires Owned(after, n.chain, k)
    ensures Kept(e, after, n, k)
  {
    SameContents(d, e, n.chain);
  }

  lemma OwnedStill(before: map<nat, nat>, after: map<nat, nat>, ch: seq<nat>, j: nat, k: nat)
    requires Owned(before, ch, j) && j != k
    requires forall c :: c in before && before[c] != k ==> c in after && after[c] == before[c]
    ensures Owned(after, ch, j)
  {
  }

  /** One node is added or changed, using its own clusters and loose ones. */
  lemma Rewire(d: Disk, e: Disk, s: Store, t: Store, k: nat)
    requires Stored(d, s) && Formed(e) && |e.fat| == |d.fat| && s.next <= t.next <= |e.fat|
    requires Free(e, t.next) && Below(t.owner, t.next)
    requires k in t.nodes && t.nodes == s.nodes[k := t.nodes[k]] && Kept(e, t.owner, t.nodes[k], k)
    requires forall c :: c in s.owner && s.owner[c] != k ==> c in t.owner && t.owner[c] == s.owner[c]
    requires forall j :: j != k ==> Agrees(d, e, s.owner, j)
    ensures Stored(e, t)
  {
    hide Agrees, Holds, IsChain, Free, Formed, Below;
    forall j | j in t.nodes && j != k ensures Kept(e, t.owner, t.nodes[j], j) {
      var n := s.nodes[j];
      assert t.nodes[j] == n && Kept(d, s.owner, n, j) && Agrees(d, e, s.owner, j);
      OwnedStill(s.owner, t.owner, n.chain, j, k);
      KeepOne(d, e, s.owner, t.owner, n, j);
    }
  }

  /** No node changes. */
  lemma KeepAll(d: Disk, e: Disk, s: Store, next: nat)
    requires Stored(d, s) && Formed(e) && |e.fat| == |d.fat| && s.next <= next <= |e.fat|
    requires Free(e, next) && forall j :: Agrees(d, e, s.owner, j)
    ensures Stored(e, s.(next := next))
  {
    hide Agrees, Holds, IsChain, Free, Formed;
    var t := s.(next := next);
    forall j | j in t.nodes ensures Kept(e, t.owner, t.nodes[j], j) {
      var n := s.nodes[j];
      assert Kept(d, s.owner, n, j) && Agrees(d, e, s.owner, j);
      KeepOne(d, e, s.owner, t.owner, n, j);
    }
  }

  lemma StoredMeans(d: Disk, s: Store)
    requires Stored(d, s)
    ensures Formed(d) && 3 <= s.next <= |d.fat| && Below(s.owner, s.next) && Free(d, s.next)
  {
  }

  lemma NodeKept(d: Disk, s: Store, k: nat)
    requires Stored(d, s) && k in s.nodes
    ensures Formed(d) && Kept(d, s.owner, s.nodes[k], k)
  {
  }

  // ---- the writer's steps ----------------------------------------------------------------------

  /** A free cluster is given out, tentatively the end of a chain. */
  lemma AllocateKeeps(d: Disk, s: Store)
    requires Stored(d, s) && s.next < |d.fat|
    ensures var e, t := d.(fat := d.fat[s.next := END_MARK]), s.(next := s.next + 1);
      Stored(e, t) && Loose(t, s.next)
  {
    StoredMeans(d, s);
    hide Stored;
    KeepAll(d, d.(fat := d.fat[s.next := END_MARK]), s, s.next + 1);
  }

  /** The table entry or the contents of a loose cluster change. */
  lemma TouchLoose(d: Disk, s: Store, c: nat, link: nat, data: seq<Byte>)
    requires Stored(d, s) && Loose(s, c) && |data| == 32 * d.slots && c < |d.fat| == |d.clusters|
    ensures Stored(d.(fat := d.fat[c := link], clusters := d.clusters[c := data]), s)
  {
    StoredMeans(d, s);
    hide Stored;
    KeepAll(d, d.(fat := d.fat[c := link], clusters := d.clusters[c := data]), s, s.next);
    assert s.(next := s.next) == s;
  }

  function Own(owner: map<nat, nat>, ch: seq<nat>, k: nat): (r: map<nat, nat>)
    ensures forall c :: c in owner && c !in ch ==> c in r && r[c] == owner[c]
    ensures forall c :: c in r ==> c in owner || c in ch
    ensures Owned(r, ch, k)
  {
    owner + map c | c in ch :: k
  }

  ghost predicate AllLoose(s: Store, ch: seq<nat>) {
    forall i :: 0 <= i < |ch| ==> Loose(s, ch[i])
  }

  lemma LooseIsNew(d: Disk, s: Store, c: nat)
    requires Stored(d, s) && Loose(s, c)
    ensures c !in s.nodes
  {
    if c in s.nodes {
      OwnsItself(d, s, c);
    }
  }

  lemma OwnsItself(d: Disk, s: Store, k: nat)
    requires Stored(d, s) && k in s.nodes
    ensures k in s.owner && s.owner[k] == k
  {
    NodeKept(d, s, k);
  }

  lemma OwnKeepsOthers(s: Store, ch: seq<nat>, k: nat)
    requires AllLoose(s, ch) && Below(s.owner, s.next)
    ensures var owner := Own(s.owner, ch, k);
      Below(owner, s.next) && forall c :: c in s.owner ==> c in owner && owner[c] == s.owner[c]
  {
    hide Own;
  }

  lemma NothingChanged(d: Disk, owner: map<nat, nat>)
    requires Formed(d)
    ensures forall j :: Agrees(d, d, owner, j)
  {
  }

  /** A finished chain of loose clusters becomes a file or a directory. */
  lemma Adopt(d: Disk, s: Store, n: Node)
    requires Stored(d, s) && Formed(d) && IsChain(d, n.chain) && AllLoose(s, n.chain) && Holds(d, n)
    ensures var k := n.chain[0];
      k !in s.nodes && Stored(d, s.(owner := Own(s.owner, n.chain, k), nodes := s.nodes[k := n]))
  {
    var k := n.chain[0];
    assert Loose(s, n.chain[0]);
    StoredMeans(d, s);
    LooseIsNew(d, s, k);
    OwnKeepsOthers(s, n.chain, k);
    NothingChanged(d, s.owner);
    hide Stored, Holds, IsChain, Own, Free, Agrees, Formed;
    Rewire(d, d, s, s.(owner := Own(s.owner, n.chain, k), nodes := s.nodes[k := n]), k);
  }

  lemma {:induction false} ZeroClusterUnused(n: nat)
    ensures SlotsOf(Zeros(32 * n)) == Unused(n)
  {
    if n > 0 {
      assert Zeros(32 * n)[..32] == Zeros(32) && Zeros(32 * n)[32..] == Zeros(32 * (n - 1));
      ZeroClusterUnused(n - 1);
    }
  }

  lemma GrownChain(d: Disk, ch: seq<nat>, c: nat)
    requires Formed(d) && IsChain(d, ch) && ch[|ch| - 1] < c < |d.fat| && d.fat[c] == END_MARK
    requires d.clusters[c] == Zeros(32 * d.slots)
    ensures var e := d.(fat := d.fat[ch[|ch| - 1] := c]);
      IsChain(e, ch + [c]) && ChainSlots(e, ch + [c]) == ChainSlots(d, ch) + Unused(d.slots)
  {
    var last := ch[|ch| - 1];
    var e, r := d.(fat := d.fat[last := c]), ch + [c];
    forall i | 0 <= i < |r| - 1 ensures r[i] < r[i + 1] == e.fat[r[i]] {
      if i < |ch| - 1 {
        ChainDistinct(d, ch, i, |ch| - 1);
      }
    }
    SameContents(d, e, ch);
    ChainConcat(e, ch, [c]);
    ZeroClusterUnused(d.slots);
    assert ChainSlots(e, [c]) == SlotsOf(e.clusters[c]) + ChainSlots(e, []);
  }

  /** The chain of node `k` changes links or contents in its own clusters, or takes in `c`. */
  lemma OthersAgree(d: Disk, e: Disk, owner: map<nat, nat>, k: nat)
    requires Formed(d) && Formed(e) && |e.fat| == |d.fat| && e.slots == d.slots
    requires forall c :: 0 <= c < |d.fat| && (e.fat[c] != d.fat[c] || e.clusters[c] != d.clusters[c]) ==>
      c in owner && owner[c] == k
    ensures forall j :: j != k ==> Agrees(d, e, owner, j)
  {
  }

  /** A directory's chain is extended by a zero cluster. */
  lemma GrowDir(d: Disk, s: Store, k: nat, c: nat)
    requires Stored(d, s) && k in s.nodes && s.nodes[k].DirNode? && s.nodes[k].chain != []
    requires Loose(s, c) && c < |d.fat| == |d.clusters| && d.fat[c] == END_MARK && d.clusters[c] == Zeros(32 * d.slots)
    requires s.nodes[k].chain[|s.nodes[k].chain| - 1] < c
    ensures var n := s.nodes[k]; var last := n.chain[|n.chain| - 1];
      && last < |d.fat|
      && Stored(d.(fat := d.fat[last := c]), s.(owner := s.owner[c := k], nodes := s.nodes[k := DirNode(n.chain + [c], n.slots)]))
  {
    var n := s.nodes[k];
    var last := n.chain[|n.chain| - 1];
    NodeKept(d, s, k);
    StoredMeans(d, s);
    GrownKept(d, s.owner, n, k, c);
    var e := d.(fat := d.fat[last := c]);
    assert last in s.owner && s.owner[last] == k;
    hide Stored, Kept, IsChain, Holds, Agrees, Free, Below, Formed;
    GrowIsSafe(d, s, k, last, c);
    Rewire(d, e, s, s.(owner := s.owner[c := k], nodes := s.nodes[k := DirNode(n.chain + [c], n.slots)]), k);
  }

  lemma GrowIsSafe(d: Disk, s: Store, k: nat, last: nat, c: nat)
    requires Formed(d) && Below(s.owner, s.next) && Free(d, s.next) && Loose(s, c)
    requires last in s.owner && s.owner[last] == k && last < |d.fat|
    ensures var e := d.(fat := d.fat[last := c]);
      && Formed(e) && Free(e, s.next) && Below(s.owner[c := k], s.next)
      && forall j :: j != k ==> Agrees(d, e, s.owner, j)
  {
    OthersAgree(d, d.(fat := d.fat[last := c]), s.owner, k);
  }

  lemma GrownKept(d: Disk, owner: map<nat, nat>, n: Node, k: nat, c: nat)
    requires Formed(d) && n.DirNode? && Kept(d, owner, n, k)
    requires n.chain[|n.chain| - 1] < c < |d.fat| && c !in owner && d.fat[c] == END_MARK
    requires d.clusters[c] == Zeros(32 * d.slots)
    ensures var e := d.(fat := d.fat[n.chain[|n.chain| - 1] := c]);
      Formed(e) && Kept(e, owner[c := k], DirNode(n.chain + [c], n.slots), k)
  {
    GrownChain(d, n.chain, c);
    GrownHolds(ChainSlots(d, n.chain), n.slots, d.slots);
    hide ChainSlots, IsChain;
  }

  lemma GrownHolds(all: seq<Slot>, slots: seq<Slot>, n: nat)
    requires slots <= all && UnusedFrom(all, |slots|)
    ensures slots <= all + Unused(n) && UnusedFrom(all + Unused(n), |slots|)
  {
  }

  // ---- writing one slot -------------------------------------------------------------------------

  /** Where the slots of a cluster, and of a chain, lie. */
  function ClusterPlaces(c: nat, j: nat, n: nat): (p: seq<(nat, nat)>)
    requires j <= n
    ensures |p| == n - j && forall i :: 0 <= i < |p| ==> p[i] == (c, 32 * (j + i))
    decreases n - j
  {
    if j == n then [] else [(c, 32 * j)] + ClusterPlaces(c, j + 1, n)
  }

  function Places(ch: seq<nat>, n: nat): seq<(nat, nat)> {
    if ch == [] then [] else ClusterPlaces(ch[0], 0, n) + Places(ch[1..], n)
  }

  lemma {:induction false} PlacesConcat(a: seq<nat>, b: seq<nat>, n: nat)
    ensures Places(a + b, n) == Places(a, n) + Places(b, n)
    decreases |a|
  {
    if a == [] {
      assert a + b == b;
    } else {
      assert (a + b)[1..] == a[1..] + b;
      PlacesConcat(a[1..], b, n);
    }
  }

  lemma {:induction false} PlacesMatchSlots(d: Disk, ch: seq<nat>)
    requires Formed(d) && Within(d, ch)
    ensures |Places(ch, d.slots)| == |ChainSlots(d, ch)|
  {
    if ch != [] {
      SlotsOfCluster(d.clusters[ch[0]], d.slots);
      PlacesMatchSlots(d, ch[1..]);
    }
  }

  function Patch(data: seq<Byte>, at: nat, slot: Slot): (r: seq<Byte>)
    requires at + 32 <= |data|
    ensures |r| == |data|
  {
    data[..at] + slot + data[at + 32..]
  }

  lemma PatchedSlots(data: seq<Byte>, n: nat, j: nat, slot: Slot)
    requires |data| == 32 * n && j < n
    ensures |SlotsOf(data)| == n && SlotsOf(Patch(data, 32 * j, slot)) == SlotsOf(data)[j := slot]
  {
    var r := Patch(data, 32 * j, slot);
    SlotsOfCluster(data, n);
    SlotsOfCluster(r, n);
    forall i | 0 <= i < n ensures SlotsOf(r)[i] == SlotsOf(data)[j := slot][i] {
      if i < j {
        assert r[32 * i..32 * i + 32] == data[32 * i..32 * i + 32];
      } else if i > j {
        assert r[32 * i..32 * i + 32] == data[32 * i..32 * i + 32];
      }
    }
  }

  lemma {:induction false} PlaceIsInChain(ch: seq<nat>, n: nat, p: nat)
    requires p < |Places(ch, n)|
    ensures var (c, off) := Places(ch, n)[p]; c in ch && off + 32 <= 32 * n
  {
    if ch != [] && p >= n {
      PlaceIsInChain(ch[1..], n, p - n);
    }
  }

  lemma PatchHead(d: Disk, ch: seq<nat>, p: nat, slot: Slot)
    requires Formed(d) && Within(d, ch) && ch != [] && p < d.slots
    requires forall i :: 1 <= i < |ch| ==> ch[i] != ch[0]
    ensures |SlotsOf(d.clusters[ch[0]])| == d.slots
    ensures ChainSlots(d.(clusters := d.clusters[ch[0] := Patch(d.clusters[ch[0]], 32 * p, slot)]), ch)
      == SlotsOf(d.clusters[ch[0]])[p := slot] + ChainSlots(d, ch[1..])
  {
    PatchedSlots(d.clusters[ch[0]], d.slots, p, slot);
    hide SlotsOf, Patch;
    SameContents(d, d.(clusters := d.clusters[ch[0] := Patch(d.clusters[ch[0]], 32 * p, slot)]), ch[1..]);
  }

  lemma PlaceAt(ch: seq<nat>, n: nat, p: nat)
    requires ch != [] && p < |Places(ch, n)|
    ensures p < n ==> Places(ch, n)[p] == (ch[0], 32 * p)
    ensures p >= n ==> p - n < |Places(ch[1..], n)| && Places(ch, n)[p] == Places(ch[1..], n)[p - n]
  {
  }

  lemma UpdateConcat<T>(a: seq<T>, b: seq<T>, p: nat, x: T)
    requires p < |a + b|
    ensures (a + b)[p := x] == if p < |a| then a[p := x] + b else a + b[p - |a| := x]
  {
  }

  lemma {:induction false} PatchChain(d: Disk, ch: seq<nat>, p: nat, slot: Slot)
    requires Formed(d) && Within(d, ch) && forall i, j :: 0 <= i < j < |ch| ==> ch[i] < ch[j]
    requires p < |Places(ch, d.slots)| == |ChainSlots(d, ch)|
    ensures var (c, off) := Places(ch, d.slots)[p];
      && c in ch && off + 32 <= |d.clusters[c]|
      && ChainSlots(d.(clusters := d.clusters[c := Patch(d.clusters[c], off, slot)]), ch) == ChainSlots(d, ch)[p := slot]
    decreases |ch|
  {
    PlaceIsInChain(ch, d.slots, p);
    assert ch != [];
    PlaceAt(ch, d.slots, p);
    SlotsOfCluster(d.clusters[ch[0]], d.slots);
    UpdateConcat(SlotsOf(d.clusters[ch[0]]), ChainSlots(d, ch[1..]), p, slot);
    hide SlotsOf, Patch, Places;
    if p < d.slots {
      PatchHead(d, ch, p, slot);
    } else {
      PlacesMatchSlots(d, ch[1..]);
      PlaceIsInChain(ch[1..], d.slots, p - d.slots);
      PatchChain(d, ch[1..], p - d.slots, slot);
      var (c, off) := Places(ch, d.slots)[p];
      assert c in ch[1..] && c != ch[0];
    }
  }

  lemma PatchedHolds(all: seq<Slot>, slots: seq<Slot>, slot: Slot)
    requires slots <= all && UnusedFrom(all, |slots|) && InUse(slots) && |slots| < |all|
    requires slot[0] != 0 && slot[0] != 0xE5
    ensures var r := all[|slots| := slot];
      slots + [slot] <= r && UnusedFrom(r, |slots| + 1) && InUse(slots + [slot])
  {
  }

  lemma PatchedKept(d: Disk, owner: map<nat, nat>, n: Node, k: nat, slot: Slot)
    requires Formed(d) && n.DirNode? && Kept(d, owner, n, k) && |n.slots| < |Places(n.chain, d.slots)|
    requires slot[0] != 0 && slot[0] != 0xE5
    ensures var (c, off) := Places(n.chain, d.slots)[|n.slots|];
      && c < |d.fat| && c in owner && owner[c] == k && off + 32 <= |d.clusters[c]|
      && var e := d.(clusters := d.clusters[c := Patch(d.clusters[c], off, slot)]);
         Formed(e) && Kept(e, owner, n.(slots := n.slots + [slot]), k)
  {
    var p := |n.slots|;
    forall i, j | 0 <= i < j < |n.chain| ensures n.chain[i] < n.chain[j] {
      ChainDistinct(d, n.chain, i, j);
    }
    PlacesMatchSlots(d, n.chain);
    PatchChain(d, n.chain, p, slot);
    var (c, off) := Places(n.chain, d.slots)[p];
    var i :| 0 <= i < |n.chain| && n.chain[i] == c;
    hide ChainSlots, Places, Patch;
    PatchedHolds(ChainSlots(d, n.chain), n.slots, slot);
  }

  /** The next free slot of a directory is filled. */
  lemma PutSlot(d: Disk, s: Store, k: nat, slot: Slot)
    requires Stored(d, s) && k in s.nodes && s.nodes[k].DirNode?
    requires |s.nodes[k].slots| < |Places(s.nodes[k].chain, d.slots)| && slot[0] != 0 && slot[0] != 0xE5
    ensures var n := s.nodes[k]; var (c, off) := Places(n.chain, d.slots)[|n.slots|];
      && c < |d.clusters| && off + 32 <= |d.clusters[c]|
      && Stored(d.(clusters := d.clusters[c := Patch(d.clusters[c], off, slot)]),
                s.(nodes := s.nodes[k := n.(slots := n.slots + [slot])]))
  {
    var n := s.nodes[k];
    NodeKept(d, s, k);
    StoredMeans(d, s);
    PatchedKept(d, s.owner, n, k, slot);
    var (c, off) := Places(n.chain, d.slots)[|n.slots|];
    var e := d.(clusters := d.clusters[c := Patch(d.clusters[c], off, slot)]);
    OthersAgree(d, e, s.owner, k);
    assert c < s.next && Free(e, s.next);
    hide Stored, Kept, IsChain, Holds, Agrees, Free, Below, Places;
    Rewire(d, e, s, s.(nodes := s.nodes[k := n.(slots := n.slots + [slot])]), k);
  }
}
