/** The volume's geometry: the tables must describe every cluster, and take room from them. */
module FatGeometry {
  import opened Arithmetic
  import opened Options

  const RESERVED: nat := 32
  const FEWEST_CLUSTERS: nat := 65525

  /** The clusters beside two tables of `fat` sectors, if any room is left. */
  function Clusters(total: nat, per: nat, fat: nat): (c: Option<nat>)
    requires per > 0
  {
    if total - RESERVED - 2 * fat <= 0 then None else Some((total - RESERVED - 2 * fat) / per)
  }

  /** The sectors a table for that many clusters takes: four bytes each, two reserved. */
  function Needed(clusters: nat): (n: nat)
    ensures (clusters + 2) * 4 <= n * 512 < (clusters + 2) * 4 + 512
  {
    ((clusters + 2) * 4 + 511) / 512
  }

  /** A larger table leaves room for fewer clusters, which need no larger table. */
  lemma NeededIsAntitone(total: nat, per: nat, f: nat, g: nat)
    requires per > 0 && f <= g && Clusters(total, per, g).Some?
    ensures Clusters(total, per, f).Some?
    ensures Clusters(total, per, g).value <= Clusters(total, per, f).value
    ensures Needed(Clusters(total, per, g).value) <= Needed(Clusters(total, per, f).value)
  {
    DivMonotone(total - RESERVED - 2 * g, total - RESERVED - 2 * f, per);
  }

  /** Where the iteration stands after its first round. */
  function FirstRound(total: nat, per: nat): Option<nat>
    requires per > 0
  {
    match Clusters(total, per, 1)
    case None => None
    case Some(c) => Some(if Needed(c) <= 1 then 1 else Needed(c))
  }

  datatype Outcome = Settled(fat: nat) | TooSmall | NoConvergence | TooFewClusters

  /** The iteration: a table size is tried until it is large enough for the clusters it leaves. */
  method ComputeGeometry(total: nat, per: nat) returns (r: Outcome, rounds: nat)
    requires per > 0
    ensures rounds <= 2 && r != NoConvergence
    ensures match FirstRound(total, per)
      case None => r == TooSmall
      case Some(f) =>
        match Clusters(total, per, f)
        case None => r == TooSmall
        case Some(c) => r == if c < FEWEST_CLUSTERS then TooFewClusters else Settled(f)
  {
    var fat := 1;
    rounds := 0;
    while rounds < 64
      invariant rounds == 0 ==> fat == 1
      invariant rounds > 0 ==> rounds == 1 && FirstRound(total, per) == Some(fat) && fat > 1
    {
      var clusters := Clusters(total, per, fat);
      if clusters.None? {
        return TooSmall, rounds;
      }
      NeededIsAntitone(total, per, 1, fat);
      rounds := rounds + 1;
      var needed := Needed(clusters.value);
      if needed <= fat {
        return if clusters.value < FEWEST_CLUSTERS then TooFewClusters else Settled(fat), rounds;
      }
      fat := needed;
    }
    return NoConvergence, rounds;
  }

  /** Whatever settles describes every cluster it leaves. */
  lemma SettledDescribesAll(total: nat, per: nat, fat: nat)
    requires per > 0 && FirstRound(total, per) == Some(fat) && Clusters(total, per, fat).Some?
    ensures (Clusters(total, per, fat).value + 2) * 4 <= fat * 512
  {
    NeededIsAntitone(total, per, 1, fat);
  }

  // ---- layout ---------------------------------------------------------------------------------

  /** The first sector of a cluster. */
  function ClusterSector(per: nat, fat: nat, c: nat): nat
    requires c >= 2
  {
    RESERVED + 2 * fat + (c - 2) * per
  }

  /** Every cluster lies inside the volume, behind the tables. */
  lemma ClusterInside(total: nat, per: nat, fat: nat, c: nat)
    requires per > 0 && Clusters(total, per, fat).Some? && 2 <= c < Clusters(total, per, fat).value + 2
    ensures RESERVED + 2 * fat <= ClusterSector(per, fat, c)
    ensures ClusterSector(per, fat, c) + per <= total
  {
    var room, n := total - RESERVED - 2 * fat, Clusters(total, per, fat).value;
    assert room == per * n + room % per;
    assert (c - 2) * per >= 0;
    var gap := n - (c - 1);
    assert per * n == per * (c - 1) + per * gap;
    assert per * (c - 1) == (c - 2) * per + per;
  }

  /** No two clusters overlap. */
  lemma ClustersApart(per: nat, fat: nat, b: nat, c: nat)
    requires 2 <= b < c
    ensures ClusterSector(per, fat, b) + per <= ClusterSector(per, fat, c)
  {
    assert (c - 2) * per == (b - 2) * per + (c - b) * per;
    MulGrows(per, c - b);
  }

  /** A table entry lies inside one sector of its table, where the reader looks for it. */
  lemma EntryInside(total: nat, per: nat, fat: nat, c: nat)
    requires per > 0 && FirstRound(total, per) == Some(fat) && Clusters(total, per, fat).Some?
    requires c < Clusters(total, per, fat).value + 2
    ensures c * 4 / 512 < fat && c * 4 % 512 + 4 <= 512 && 512 * (c * 4 / 512) + c * 4 % 512 == c * 4
  {
    SettledDescribesAll(total, per, fat);
  }

  /** A volume of 64 MiB with clusters of one sector: two tables of 1024 sectors behind 32 reserved
      ones, and 128992 clusters up to the last sector. */
  lemma GeometryVector()
    ensures FirstRound(131072, 1) == Some(1024) && Clusters(131072, 1, 1024) == Some(128992)
    ensures ClusterSector(1, 1024, 2) == 2080 && ClusterSector(1, 1024, 128992 + 1) == 131071
  {
  }
}
