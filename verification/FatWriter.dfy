/** The image builder's FAT32 volume: clusters given out in order, chains linked upwards,
    directory entries appended. */
module FatWriter {
  import opened Words
  import opened Arithmetic
  import opened Options
  import opened Bits
  import opened FatNames
  import opened FatPaths
  import opened FatDirectories
  import opened FatDisks
  import opened FatModel
  import opened FatLayouts
  import opened FatNameWriter

  /** How a request ends; the errors are the source's. */
  datatype Outcome = Done | Full | NotADirectory | Exists | TooLarge

  class Fat32Volume {
    const slots: nat       // directory entries a cluster
    var clusters: seq<seq<Byte>>
    var fat: seq<nat>
    var next: nat          // next_free_cluster
    ghost var store: Store
    ghost var fs: Fs

    ghost function View(): (d: Disk)
      reads this
    {
      Disk(slots, clusters, fat)
    }

    ghost predicate Valid()
      reads this
    {
      Stored(View(), store) && store.next == next
    }

    /** The directories and files are those of `fs`. */
    ghost predicate Sane()
      reads this
    {
      Valid() && Represents(store, fs) && Closed(fs) && Small(fs)
    }

    /** A formatted volume: an empty root directory in cluster 2, everything else free. */
    constructor (slots: nat, entries: nat)
      requires 16 <= slots && 65527 <= entries < EOC
      ensures Sane() && this.slots == slots && |fat| == entries
      ensures fs == Fs(map[ROOT := []], map[])
    {
      this.slots := slots;
      clusters := seq(entries, i => Zeros(32 * slots));
      fat := seq(entries, i => 0)[0 := 0x0FFFFFF8][1 := 0x0FFFFFFF][ROOT := END_MARK];
      next := 3;
      store := Store(3, map[ROOT := ROOT], map[ROOT := DirNode([ROOT], [])]);
      fs := Fs(map[ROOT := []], map[]);
      new;
      FormattedIsStored(View(), entries);
    }

    /** The table keeps 28 bits; a cluster beyond it is refused. */
    method SetFat(cluster: nat, value: nat) returns (ok: bool)
      modifies this`fat
      ensures ok == (cluster < |old(fat)|)
      ensures fat == if ok then old(fat)[cluster := value % 0x1000_0000] else old(fat)
    {
      if cluster >= |fat| {
        return false;
      }
      fat := fat[cluster := value % 0x1000_0000];
      return true;
    }

    method AllocateCluster() returns (ok: bool, cluster: nat)
      requires Valid()
      modifies this`clusters, this`fat, this`next, this`store
      ensures Valid() && clusters == old(clusters)
      ensures ok <==> old(next) < |old(fat)| - 1
      ensures ok ==> (
        && cluster == old(next) && next == cluster + 1 && fat == old(fat)[cluster := END_MARK]
        && store == old(store).(next := next) && Loose(store, cluster) && clusters[cluster] == Zeros(32 * slots))
      ensures !ok ==> fat == old(fat) && next == old(next) && store == old(store)
    {
      hide Stored, Formed, Free, Below, AllKept, Zeros;
      cluster := next;
      while cluster < |fat| && fat[cluster] != 0
        invariant next <= cluster && (cluster > next ==> next < |fat| && fat[next] != 0)
      {
        cluster := cluster + 1;
      }
      FreeAhead(View(), store);
      assert cluster == next;
      if cluster >= |fat| - 1 {
        return false, cluster;
      }
      AllocateKeeps(View(), store);
      next := cluster + 1;
      store := store.(next := next);
      ok := SetFat(cluster, END_MARK);
    }

    /** The clusters a file needs, taken and linked. */
    method ChainForSize(size: nat) returns (ok: bool, chain: seq<nat>)
      requires Valid()
      modifies this`clusters, this`fat, this`next, this`store
      ensures Valid() && clusters == old(clusters) && store == old(store).(next := next)
      ensures |fat| == |old(fat)| && old(next) <= next
      ensures var n := ClustersFor(size, 32 * slots);
        && (ok <==> old(next) + n <= |fat| - 1)
        && (ok ==> |chain| == n && next == old(next) + n && chain[0] == old(next)
                   && IsChain(View(), chain) && AllLoose(store, chain)
                   && forall i :: 0 <= i < n ==> clusters[chain[i]] == Zeros(32 * slots))
    {
      ClustersForIs(size, 32 * slots);
      var rounded := (size + 32 * slots - 1) / (32 * slots);
      var needed := if rounded > 1 then rounded else 1;
      assert needed == ClustersFor(size, 32 * slots);
      hide Stored, ClustersFor, Zeros;
      ok, chain := TakeClusters(needed);
      if ok {
        LinkClusters(chain);
      }
    }

    /** The allocation loop. */
    method TakeClusters(needed: nat) returns (ok: bool, chain: seq<nat>)
      requires Valid() && needed > 0
      modifies this`clusters, this`fat, this`next, this`store
      ensures Valid() && clusters == old(clusters) && store == old(store).(next := next)
      ensures |fat| == |old(fat)| == |clusters| && old(next) <= next <= |fat|
      ensures ok <==> old(next) + needed <= |fat| - 1
      ensures ok ==> |chain| == needed && next == old(next) + needed && AllLoose(store, chain)
      ensures ok ==> forall i :: 0 <= i < needed ==>
        chain[i] == old(next) + i && fat[chain[i]] == END_MARK && clusters[chain[i]] == Zeros(32 * slots)
    {
      hide Stored, Zeros;
      chain := [];
      ok := true;
      FreeAhead(View(), store);
      for k := 0 to needed
        invariant Valid() && clusters == old(clusters) && store == old(store).(next := next)
        invariant |fat| == |old(fat)| == |clusters| && next == old(next) + k <= |fat| && |chain| == k
        invariant k > 0 ==> next <= |fat| - 1
        invariant forall i :: 0 <= i < k ==>
          chain[i] == old(next) + i && fat[chain[i]] == END_MARK && clusters[chain[i]] == Zeros(32 * slots)
        invariant AllLoose(store, chain) && ok
      {
        var c;
        ok, c := AllocateCluster();
        if !ok {
          return;
        }
        chain := chain + [c];
      }
    }

    /** The linking loop. */
    method LinkClusters(chain: seq<nat>)
      requires Valid() && chain != [] && AllLoose(store, chain) && |fat| == |clusters|
      requires forall i :: 0 <= i < |chain| - 1 ==> chain[i] < chain[i + 1]
      requires forall i :: 0 <= i < |chain| ==> chain[i] < |fat| && fat[chain[i]] == END_MARK
      modifies this`fat
      ensures Valid() && |fat| == |old(fat)| && IsChain(View(), chain)
    {
      hide Stored;
      FreeAhead(View(), store);
      forall i, j | 0 <= i < j < |chain| ensures chain[i] < chain[j] {
        Increasing(chain, i, j);
      }
      var ok;
      for i := 0 to |chain| - 1
        invariant Valid() && |fat| == |old(fat)|
        invariant forall j :: 0 <= j < i ==> fat[chain[j]] == chain[j + 1]
        invariant forall j :: i <= j < |chain| ==> fat[chain[j]] == END_MARK
      {
        Touch(chain[i], chain[i + 1], clusters[chain[i]]);
        assert clusters[chain[i] := clusters[chain[i]]] == clusters;
        assert chain[i + 1] % 0x1000_0000 == chain[i + 1];
        ghost var before := fat;
        ok := SetFat(chain[i], chain[i + 1]);
        forall j | 0 <= j < |chain|
          ensures fat[chain[j]] == if j == i then chain[i + 1] else before[chain[j]]
        {
          assert j < i ==> chain[j] < chain[i];
          assert j > i ==> chain[i] < chain[j];
        }
      }
      var last := chain[|chain| - 1];
      Touch(last, END_MARK, clusters[last]);
      assert clusters[last := clusters[last]] == clusters;
      ok := SetFat(last, END_MARK);
    }

    /** The bytes of a file, cluster by cluster, the last one filled with zeros. */
    method WriteClusters(chain: seq<nat>, data: seq<Byte>)
      requires Valid() && IsChain(View(), chain) && AllLoose(store, chain)
      requires slots > 0 && |chain| == ClustersFor(|data|, 32 * slots)
      modifies this`clusters
      ensures Valid() && IsChain(View(), chain) && |clusters| == |old(clusters)|
      ensures Within(View(), chain) && Holds(View(), FileNode(chain, data))
    {
      hide Stored, IsChain, ChainData, AllLoose, Zeros;
      var at: nat := 0;
      FreeAhead(View(), store);
      ChainIsWithin(View(), chain);
      assert chain[..0] == [] && data[..0] == [];
      NothingWritten(View());
      for i := 0 to |chain|
        invariant Valid() && |clusters| == |old(clusters)| == |fat| && Within(View(), chain)
        invariant at <= |data| && Within(View(), chain[..i])
        invariant i < |chain| ==>
          ClustersFor(|data| - at, 32 * slots) == |chain| - i && ChainData(View(), chain[..i]) == data[..at]
        invariant i == |chain| ==>
          data <= ChainData(View(), chain[..i]) && ZeroFrom(ChainData(View(), chain[..i]), |data|)
      {
        var rest := data[at..];
        var chunk := if |rest| <= 32 * slots then rest else rest[..32 * slots];
        var block := chunk + Zeros(32 * slots - |chunk|);
        IsLoose(store, chain, i);
        FreeAhead(View(), store);
        ChainUnlinked(View(), old(View()), chain);
        Touch(chain[i], fat[chain[i]], block);
        assert fat[chain[i] := fat[chain[i]]] == fat;
        NextWritten(View(), chain, i, block);
        clusters := clusters[chain[i] := block];
        at := at + |chunk|;
        if i == |chain| - 1 {
          assert data[..at - |chunk|] + block == data + Zeros(32 * slots - |chunk|);
        } else {
          assert data[..at - |chunk|] + block == data[..at];
        }
      }
      assert chain[..|chain|] == chain;
      ChainUnlinked(View(), old(View()), chain);
    }

    // ---- appending directory entries ----------------------------------------------------------

    /** The free slots of one cluster of a directory. When its first `used` slots are in use
        and the rest have never been, these are the rest. */
    method CollectFree(raw: seq<Byte>, cluster: nat, wasEnded: bool, before: seq<(nat, nat)>, count: nat, ghost used: nat)
      returns (places: seq<(nat, nat)>, ended: bool)
      requires |raw| == 32 * slots && |SlotsOf(raw)| == slots && |before| < count
      requires if wasEnded then used == 0 else before == []
      ensures UsedThenFree(SlotsOf(raw), used) ==>
        Collected(cluster, slots, used, wasEnded, before, places, ended)
    {
      places, ended := before, wasEnded;
      SlotsOfCluster(raw, slots);
      hide SlotsOf;
      ghost var clean := UsedThenFree(SlotsOf(raw), used);
      if wasEnded {
        places := AddPlaces(places, cluster, 0);
        return;
      }
      for j := 0 to slots
        invariant !ended && (clean ==> places == [] && j <= used)
      {
        assert SlotsOf(raw)[j] == raw[32 * j..32 * j + 32];
        var marker := raw[32 * j];
        assert marker == SlotsOf(raw)[j][0];
        if marker == 0x00 {
          ended := true;
          places := AddPlaces(places, cluster, j);
          return;
        }
        if marker == 0xE5 {
          places := places + [(cluster, 32 * j)];
        }
        if |places| >= count {
          break;
        }
      }
    }

    method AddPlaces(before: seq<(nat, nat)>, cluster: nat, from: nat) returns (places: seq<(nat, nat)>)
      requires from <= slots
      ensures places == before + ClusterPlaces(cluster, from, slots)
    {
      places := before;
      for j := from to slots
        invariant places + ClusterPlaces(cluster, j, slots) == before + ClusterPlaces(cluster, from, slots)
      {
        assert places + ([(cluster, 32 * j)] + ClusterPlaces(cluster, j + 1, slots))
          == places + [(cluster, 32 * j)] + ClusterPlaces(cluster, j + 1, slots);
        places := places + [(cluster, 32 * j)];
      }
    }

    /** One cluster further. */
    method SearchCluster(dir: nat, ghost i: nat, cluster: nat, wasEnded: bool, before: seq<(nat, nat)>, count: nat)
      returns (places: seq<(nat, nat)>, ended: bool)
      requires Valid() && dir in store.nodes && Searching(store.nodes[dir], slots, i, before, wasEnded)
      requires |before| < count && i < |store.nodes[dir].chain| && store.nodes[dir].chain[i] == cluster
      ensures Searching(store.nodes[dir], slots, i + 1, places, ended)
      ensures wasEnded ==> ended && |places| > |before|
      ensures (!ended ==> places == []) && (!wasEnded ==> before == [])
    {
      ghost var n := store.nodes[dir];
      NodeKept(View(), store, dir);
      ClusterOfDir(View(), store.owner, n, dir, i);
      PlacesSplit(View(), n.chain, i);
      ghost var here := UsedHere(n, slots, i);
      SearchMeans(n, slots, i, before, wasEnded);
      hide Stored, Kept, Places, ClusterPlaces, SlotsOf, Searching, Collected, UsedThenFree, UsedHere;
      places, ended := CollectFree(clusters[cluster], cluster, wasEnded, before, count, here);
      SearchStep(n, slots, i, before, wasEnded, places, ended);
    }

    /** The directory's chain gets a added cluster at its end; the search goes on there. */
    method Extend(dir: nat, cluster: nat, ghost i: nat, ghost places: seq<(nat, nat)>, ghost ended: bool)
      returns (ok: bool, added: nat)
      requires Valid() && dir in store.nodes && Searching(store.nodes[dir], slots, i + 1, places, ended)
      requires i == |store.nodes[dir].chain| - 1 && store.nodes[dir].chain[i] == cluster
      modifies this`clusters, this`fat, this`next, this`store
      ensures Valid() && |fat| == |old(fat)| && clusters == old(clusters) && dir in store.nodes
      ensures !ok ==> next >= |fat| - 1 && store.nodes == old(store.nodes)
      ensures ok ==> OnlyGrew(old(store.nodes), store.nodes, dir) && store.nodes[dir].chain == old(store.nodes[dir].chain) + [added]
      ensures ok ==> Searching(store.nodes[dir], slots, i + 1, places, true)
    {
      ghost var n := store.nodes[dir];
      assert n.DirNode?;
      hide Stored, Places, Zeros, Searching, Loose;
      DirFits(View(), store, dir);
      ChainEnds(View(), store, dir);
      ok, added := AllocateCluster();
      if ok {
        ExtendStep(n, slots, i, places, ended, added);
        LinkFresh(dir, cluster, added);
      }
    }

    /** The last cluster of a directory is linked to the one just given out. */
    method LinkFresh(dir: nat, cluster: nat, added: nat)
      requires Valid() && dir in store.nodes && store.nodes[dir].DirNode? && Loose(store, added)
      requires var ch := store.nodes[dir].chain; ch != [] && ch[|ch| - 1] == cluster < added
      requires added < |fat| == |clusters| < EOC && fat[added] == END_MARK && clusters[added] == Zeros(32 * slots)
      modifies this`fat, this`store
      ensures Valid() && |fat| == |old(fat)|
      ensures store.nodes == old(store.nodes)[dir := DirNode(old(store.nodes[dir].chain) + [added], old(store.nodes[dir].slots))]
    {
      hide Stored, Zeros;
      ghost var n := store.nodes[dir];
      GrowDir(View(), store, dir, added);
      ghost var grown := fat[cluster := added];
      assert added % 0x1000_0000 == added;
      var ok := SetFat(cluster, added);
      ok := SetFat(added, END_MARK);
      assert fat == grown;
      store := store.(owner := store.owner[added := dir], nodes := store.nodes[dir := DirNode(n.chain + [added], n.slots)]);
    }

    /** On to the next cluster of the chain, or to a fresh one. */
    method NextPlace(dir: nat, ghost i: nat, cluster: nat, ghost places: seq<(nat, nat)>, wasEnded: bool)
      returns (ok: bool, following: nat, ended: bool)
      requires Valid() && dir in store.nodes && Searching(store.nodes[dir], slots, i + 1, places, wasEnded)
      requires i < |store.nodes[dir].chain| && store.nodes[dir].chain[i] == cluster
      modifies this`clusters, this`fat, this`next, this`store
      ensures Valid() && |fat| == |old(fat)| && clusters == old(clusters) && dir in store.nodes
      ensures OnlyGrew(old(store.nodes), store.nodes, dir)
      ensures !ok ==> next >= |fat| - 1
      ensures ok ==> Searching(store.nodes[dir], slots, i + 1, places, ended)
      ensures ok ==> i + 1 < |store.nodes[dir].chain| && store.nodes[dir].chain[i + 1] == following
      ensures (wasEnded ==> ended) && (!ended ==> |store.nodes[dir].chain| == |old(store.nodes[dir].chain)|)
    {
      ok, ended := true, wasEnded;
      ChainGoesOn(View(), store, dir, i);
      IsDirectoryNode(store.nodes[dir], slots, i + 1, places, wasEnded);
      NotGrown(store.nodes, dir);
      hide Stored, Places, Searching, OnlyGrew;
      following := fat[cluster];
      if following >= EOC {
        ended := true;
        ok, following := Extend(dir, cluster, i, places, wasEnded);
      }
    }

    /** Places for `count` entries behind those in use. */
    method FindRoom(dir: nat, count: nat) returns (ok: bool, places: seq<(nat, nat)>)
      requires Valid() && dir in store.nodes && store.nodes[dir].DirNode? && count > 0
      modifies this`clusters, this`fat, this`next, this`store
      ensures Valid() && |fat| == |old(fat)| && clusters == old(clusters) && dir in store.nodes
      ensures OnlyGrew(old(store.nodes), store.nodes, dir)
      ensures !ok ==> next >= |fat| - 1
      ensures ok ==> count <= |places| && Room(store.nodes[dir], slots, places)
    {
      var cluster, ended := dir, false;
      places := [];
      ok := true;
      ghost var i: nat := 0;
      SearchStarts(store.nodes[dir], slots);
      ChainEnds(View(), store, dir);
      ghost var nodes := store.nodes;
      NotGrown(nodes, dir);
      hide Stored, Places, Searching, OnlyGrew, Room;
      while |places| < count
        invariant Valid() && |fat| == |old(fat)| && clusters == old(clusters) && ok
        invariant dir in store.nodes && Searching(store.nodes[dir], slots, i, places, ended)
        invariant OnlyGrew(nodes, store.nodes, dir)
        invariant |places| < count ==> i < |store.nodes[dir].chain| && store.nodes[dir].chain[i] == cluster
        decreases count - |places|, if ended then 0 else 1, |store.nodes[dir].chain| - i
      {
        places, ended := SearchCluster(dir, i, cluster, ended, places, count);
        if |places| < count {
          ghost var before := store.nodes;
          ok, cluster, ended := NextPlace(dir, i, cluster, places, ended);
          GrewTwice(nodes, before, store.nodes, dir);
          if !ok {
            return;
          }
        }
        i := i + 1;
      }
      SearchDone(store.nodes[dir], slots, i, places, ended);
    }

    /** Appends entries to a directory, extending it by clusters as needed. */
    method AppendEntry(dir: nat, raw: seq<Slot>) returns (ok: bool)
      requires Valid() && dir in store.nodes && store.nodes[dir].DirNode?
      requires raw != [] && InUse(raw)
      modifies this`clusters, this`fat, this`next, this`store
      ensures Valid() && |fat| == |old(fat)|
      ensures dir in store.nodes && store.nodes == old(store.nodes)[dir := store.nodes[dir]] && store.nodes[dir].DirNode?
      ensures store.nodes[dir].slots == if ok then old(store.nodes[dir].slots) + raw else old(store.nodes[dir].slots)
      ensures !ok ==> next >= |fat| - 1
    {
      hide Stored, Places, InUse, Room;
      var places;
      ok, places := FindRoom(dir, |raw|);
      if ok {
        FillSlots(dir, raw, places);
      }
    }

    method FillSlots(dir: nat, raw: seq<Slot>, places: seq<(nat, nat)>)
      requires Valid() && dir in store.nodes && store.nodes[dir].DirNode? && InUse(raw)
      requires |raw| <= |places| && Room(store.nodes[dir], slots, places)
      modifies this`clusters, this`store
      ensures Valid() && dir in store.nodes
      ensures store.nodes == old(store.nodes)[dir := DirNode(old(store.nodes[dir].chain), old(store.nodes[dir].slots) + raw)]
    {
      hide Stored, Places;
      ghost var n := store.nodes[dir];
      assert raw[..0] == [] && n.slots + [] == n.slots;
      for index := 0 to |raw|
        invariant Valid() && dir in store.nodes
        invariant store.nodes == old(store.nodes)[dir := DirNode(n.chain, n.slots + raw[..index])]
      {
        var (target, offset) := places[index];
        assert Places(n.chain, slots)[|n.slots| + index] == places[index];
        PutSlot(View(), store, dir, raw[index]);
        assert raw[..index + 1] == raw[..index] + [raw[index]];
        assert n.slots + raw[..index] + [raw[index]] == n.slots + raw[..index + 1];
        var block := clusters[target];
        block := block[..offset] + raw[index] + block[offset + 32..];
        clusters := clusters[target := block];
        store := store.(nodes := store.nodes[dir := DirNode(n.chain, n.slots + raw[..index + 1])]);
      }
      assert raw[..|raw|] == raw;
    }

    // ---- searching a directory ------------------------------------------------------------------

    /** The entries of one cluster; `stop` at the end of the directory. */
    method IterCluster(raw: seq<Byte>, before: seq<DirEntry>) returns (entries: seq<DirEntry>, stop: bool)
      requires |raw| == 32 * slots
      ensures Shorts(entries, stop) == var s := ShortScan(SlotsOf(raw)); Shorts(before + s.entries, s.stop)
    {
      SlotsOfCluster(raw, slots);
      ghost var all := SlotsOf(raw);
      hide SlotsOf, ShortEntryAt;
      entries, stop := before, false;
      assert all[0..] == all && [] + ShortScan(all).entries == ShortScan(all).entries;
      for j := 0 to slots
        invariant entries + ShortScan(all[j..]).entries == before + ShortScan(all).entries && !stop
        invariant ShortScan(all[j..]).stop == ShortScan(all).stop
      {
        var entry: Slot := raw[32 * j..32 * j + 32];
        assert all[j..][0] == entry && all[j..][1..] == all[j + 1..];
        if entry[0] == 0x00 {
          return entries, true;
        }
        if entry[0] == 0xE5 || entry[11] == 0x0F {
          continue;
        }
        assert entries + ([ShortEntryAt(entry)] + ShortScan(all[j + 1..]).entries)
          == entries + [ShortEntryAt(entry)] + ShortScan(all[j + 1..]).entries;
        entries := entries + [ShortEntryAt(entry)];
      }
      assert all[slots..] == [];
    }

    /** Cluster after cluster. */
    method IterDir(dir: nat) returns (entries: seq<DirEntry>)
      requires Valid() && dir in store.nodes && store.nodes[dir].DirNode?
      ensures Within(View(), store.nodes[dir].chain)
      ensures entries == ShortScan(ChainSlots(View(), store.nodes[dir].chain)).entries
    {
      ghost var d, ch := View(), store.nodes[dir].chain;
      ChainEnds(d, store, dir);
      NodeIsWithin(d, store, dir);
      IterStarts(d, ch);
      hide Stored, ShortScan, ChainSlots, SlotsOf, Within, Iterated, Formed;
      entries := [];
      var cluster := dir;
      ghost var i: nat := 0;
      while cluster < EOC && cluster >= 2
        invariant i <= |ch| && (if i < |ch| then cluster == ch[i] else cluster >= EOC)
        invariant Iterated(d, ch, i, entries)
        decreases |ch| - i
      {
        ChainGoesOn(d, store, dir, i);
        ClusterSize(d, ch[i]);
        ghost var before := entries;
        var stop;
        entries, stop := IterCluster(clusters[cluster], entries);
        IterStep(d, ch, i, before, entries, stop);
        if stop {
          return;
        }
        cluster := fat[cluster];
        i := i + 1;
      }
      if i < |ch| {
        ChainGoesOn(d, store, dir, i);
      }
      IterEnds(d, ch, entries);
    }

    /** The writer's search for an entry, by short name. */
    method FindEntry(dir: nat, name: seq<Byte>) returns (found: Option<DirEntry>)
      requires Sane() && dir in fs.tree
      ensures match FindRec(fs.tree[dir], Upper(name))
        case Some(r) => found == Some(ShortListing(r)) && r in fs.tree[dir]
        case None => found == None
    {
      hide Stored, Upper, Key83, ShortScan, ChainSlots, ShortListing;
      assert Represented(store, fs, dir);
      var wanted := Upper(name);
      var entries := IterDir(dir);
      DirSearched(View(), store, fs, dir, wanted);
      FindRecIn(fs.tree[dir], wanted);
      var i := 0;
      assert entries[0..] == entries;
      while i < |entries|
        invariant i <= |entries| && FirstOf(entries[i..], wanted) == FirstOf(entries, wanted)
      {
        assert entries[i..][0] == entries[i] && entries[i..][1..] == entries[i + 1..];
        if Upper(entries[i].name) == wanted {
          return Some(entries[i]);
        }
        i := i + 1;
      }
      return None;
    }

    // ---- mkdir and write_file ---------------------------------------------------------------------

    /** The long-name entries and the entry proper go to the end of a directory. */
    method AddEntry(dir: nat, r: Rec) returns (ok: bool)
      requires Sane() && dir in fs.tree && r.Named? && ValidRec(r) && Leads(fs, r)
      modifies this
      ensures Sane() && |fat| == |old(fat)|
      ensures if ok then fs == Added(old(fs), dir, r) else fs == old(fs) && next >= |fat| - 1
    {
      hide Stored, ShortName, LfnDown, Fragments, Closed, Extends, Small, LegalDirs;
      var short := ShortName(r.name, r.dir);
      var sum := ShortNameChecksum(short);
      FewFragments(r.name);
      var long := LongNameEntries(r.name, sum);
      var raw := long + [SlotOf(r)];
      assert raw == RecSlots(r);
      RecSlotsInUse(r);
      assert Represented(store, fs, dir);
      ghost var s0 := store;
      hide RecSlots, SlotOf;
      ok := AppendEntry(dir, raw);
      EntryRepresented(s0, store, fs, dir, r, ok);
      if ok {
        AddedKeeps(fs, dir, r);
        SmallStays(fs, dir, r);
        fs := Added(fs, dir, r);
      }
    }

    /** A cluster with the entries "." and "..", in no directory yet. */
    method NewDirCluster(parent: nat) returns (ok: bool, cluster: nat)
      requires Sane() && parent in fs.tree
      modifies this
      ensures Sane() && |fat| == |old(fat)|
      ensures if ok then cluster !in old(fs.tree) && cluster < 0x1_0000_0000 && fs == WithDir(old(fs), cluster, parent)
              else fs == old(fs) && next >= |fat| - 1
    {
      hide Stored, Closed, Extends, LegalDirs, Zeros, Represents;
      ParentIsSmall(fs, parent);
      FreeAhead(View(), store);
      ghost var s0 := store;
      ok, cluster := AllocateCluster();
      OnlyNext(s0, store, fs);
      if ok {
        var block := SlotOf(Dot(cluster)) + SlotOf(DotDot(parent)) + Zeros(32 * slots - 64);
        Touch(cluster, fat[cluster], block);
        assert fat[cluster := fat[cluster]] == fat;
        clusters := clusters[cluster := block];
        FreshIsNew(View(), store, fs, cluster);
        DotsAdopted(View(), store, fs, cluster, parent);
        WithDirKeeps(fs, cluster, parent);
        store := AdoptedStore(store, DirNode([cluster], [SlotOf(Dot(cluster)), SlotOf(DotDot(parent))]));
        fs := WithDir(fs, cluster, parent);
      }
    }

    /** The clusters of a file, taken, linked and written, in no directory yet. */
    method NewFileClusters(data: seq<Byte>) returns (ok: bool, start: nat)
      requires Sane() && data != []
      modifies this
      ensures Sane() && |fat| == |old(fat)|
      ensures if ok then start !in old(fs.files) && start < 0x1_0000_0000 && fs == old(fs).(files := old(fs.files)[start := data])
              else fs == old(fs) && next + ClustersFor(|data|, 32 * slots) > |fat| - 1
    {
      hide Stored, Closed, Represents, IsChain, AllLoose, Holds, ClustersFor, Zeros;
      FreeAhead(View(), store);
      start := 0;
      var chain;
      ghost var s0 := store;
      ok, chain := ChainForSize(|data|);
      OnlyNext(s0, store, fs);
      if ok {
        WriteClusters(chain, data);
        start := chain[0];
        StartIsNew(View(), store, fs, chain);
        FileAdopted(View(), store, fs, chain, data);
        FileKeeps(fs, start, data);
        store := AdoptedStore(store, FileNode(chain, data));
        fs := fs.(files := fs.files[start := data]);
      }
    }

    /** `mkdir` of a path string. */
    method Mkdir(path: seq<Byte>) returns (r: Outcome, cluster: nat)
      requires Sane() && AllNameable(MkdirParts(path))
      modifies this
      ensures Sane() && |fat| == |old(fat)| && r in {Done, Full, NotADirectory}
      ensures r == Done ==> Made(old(fs), ROOT, MkdirParts(path), fs, cluster)
      ensures r == Full ==> next >= |fat| - 1
      ensures r == NotADirectory ==> FileInTheWay(fs, MkdirParts(path))
    {
      hide Stored, Closed, Made, MkdirParts;
      r, cluster := MakeDirs(MkdirParts(path));
    }

    /** Makes or enters the directories of a path, one after another. */
    method MakeDirs(parts: seq<seq<Byte>>) returns (r: Outcome, cluster: nat)
      requires Sane() && AllNameable(parts)
      modifies this
      ensures Sane() && |fat| == |old(fat)| && r in {Done, Full, NotADirectory}
      ensures r == Done ==> Made(old(fs), ROOT, parts, fs, cluster)
      ensures r == Full ==> next >= |fat| - 1
      ensures r == NotADirectory ==> FileInTheWay(fs, parts)
    {
      cluster := ROOT;
      ghost var start := fs;
      assert parts[0..] == parts && ROOT in fs.tree;
      hide Stored, Closed, Extends, LegalDirs, Represents, Nameable, FindRec, ShortListing, Key83;
      for i := 0 to |parts|
        invariant Sane() && |fat| == |old(fat)| && cluster in fs.tree
        invariant forall after, end :: Made(fs, cluster, parts[i..], after, end) ==> Made(start, ROOT, parts, after, end)
      {
        var part := parts[i];
        assert parts[i..][0] == part && parts[i..][1..] == parts[i + 1..];
        var existing := FindEntry(cluster, part);
        FindRecIn(fs.tree[cluster], Upper(part));
        if existing.Some? {
          ghost var rec := FindRec(fs.tree[cluster], Upper(part)).value;
          ShownAs(rec);
          if !existing.value.dir {
            assert InTheWay(fs, parts, cluster, rec, i);
            return NotADirectory, cluster;
          }
          EntryLeads(fs, cluster, rec);
          cluster := existing.value.first;
          continue;
        }
        ghost var before := fs;
        var ok, added := NewDirCluster(cluster);
        if !ok {
          return Full, cluster;
        }
        DirIsKnown(before, added, cluster, part);
        ok := AddEntry(cluster, Named(part, true, added, 0));
        if !ok {
          return Full, cluster;
        }
        MadeNext(before, cluster, parts[i..], added);
        cluster := added;
      }
      r := Done;
      assert parts[|parts|..] == [];
      assert Made(fs, cluster, [], fs, cluster);
    }

    /** `write_file` of a path string: its last component is the name. */
    method WriteFile(path: seq<Byte>, data: seq<Byte>)
      returns (r: Outcome, ghost made: bool, ghost mid: Fs, ghost dir: nat, ghost first: nat)
      requires Sane() && AllNameable(MkdirParts(FileParent(path))) && Nameable(FileName(path))
      modifies this
      ensures Sane() && |fat| == |old(fat)|
      ensures !made ==> (r == Full && next >= |fat| - 1) || (r == NotADirectory && FileInTheWay(fs, MkdirParts(FileParent(path))))
      ensures made ==> Made(old(fs), ROOT, MkdirParts(FileParent(path)), mid, dir) && dir in mid.tree && r != NotADirectory
      ensures made ==> (r == Exists <==> exists rec :: rec in mid.tree[dir] && Key83(rec) == Upper(FileName(path)))
      ensures r == Done ==> made && Wrote(mid, dir, FileName(path), data, first, fs)
      ensures r == Full ==> next >= |fat| - 1 - ClustersFor(|data|, 32 * slots)
      ensures r == TooLarge ==> |data| >= 0x1_0000_0000
    {
      hide Stored, Closed, Made, MkdirParts, FileParent, FileName;
      r, made, mid, dir, first := WriteUnder(MkdirParts(FileParent(path)), FileName(path), data);
    }

    /** Writes a file, making its directories as needed. Once they are there, the file is refused
        as existing exactly when its name, in upper case, is the short form of some entry. A file
        of 4 GiB or more has no directory entry: it is given up after its clusters are written. */
    method WriteUnder(dirs: seq<seq<Byte>>, name: seq<Byte>, data: seq<Byte>)
      returns (r: Outcome, ghost made: bool, ghost mid: Fs, ghost dir: nat, ghost first: nat)
      requires Sane() && AllNameable(dirs) && Nameable(name)
      modifies this
      ensures Sane() && |fat| == |old(fat)|
      ensures !made ==> (r == Full && next >= |fat| - 1) || (r == NotADirectory && FileInTheWay(fs, dirs))
      ensures made ==> Made(old(fs), ROOT, dirs, mid, dir) && dir in mid.tree && r != NotADirectory
      ensures made ==> (r == Exists <==> exists rec :: rec in mid.tree[dir] && Key83(rec) == Upper(name))
      ensures r == Done ==> made && Wrote(mid, dir, name, data, first, fs)
      ensures r == Full ==> next >= |fat| - 1 - ClustersFor(|data|, 32 * slots)
      ensures r == TooLarge ==> |data| >= 0x1_0000_0000
    {
      hide Stored, Closed, Extends, LegalDirs, Represents, AllNameable, FindRec, ShortListing, Key83, Made;
      made, mid, dir, first := false, fs, ROOT, 0;
      var cluster;
      r, cluster := MakeDirs(dirs);
      if r != Done {
        return;
      }
      made, mid, dir := true, fs, cluster;
      MadeEnds(old(fs), ROOT, dirs, mid, dir);
      var existing := FindEntry(cluster, name);
      FindRecIn(mid.tree[dir], Upper(name));
      if existing.Some? {
        r := Exists;
        return;
      }
      var start := 0;
      if data != [] {
        var ok;
        ok, start := NewFileClusters(data);
        if !ok {
          r := Full;
          return;
        }
      }
      if |data| >= 0x1_0000_0000 {
        r := TooLarge;
        return;
      }
      first := start;
      NameIsValid(name, start, |data|);
      var added := AddEntry(cluster, Named(name, false, start, |data|));
      r := if added then Done else Full;
    }

    /** `TouchLoose` for the volume as it is. */
    lemma Touch(c: nat, link: nat, data: seq<Byte>)
      requires Valid() && Loose(store, c) && c < |fat| && |data| == 32 * slots && c < |clusters| == |fat|
      ensures Stored(View().(fat := fat[c := link], clusters := clusters[c := data]), store)
    {
      TouchLoose(View(), store, c, link, data);
    }
  }
}
