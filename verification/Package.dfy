/** The package stream end to end: an archive cut anywhere, each piece a gzip member, read back
    member by member and walked as one archive. */
module Package {
  import opened Bits
  import opened DeflateFormat
  import opened Gzip
  import opened GzipTheorems
  import opened GzipWriter
  import opened GzipReader
  import opened Tar
  import opened TarTheorems
  import opened TarReader

  function Pieces(cuts: seq<seq<Byte>>): (ps: seq<Piece>)
    ensures |ps| == |cuts| && forall i :: 0 <= i < |ps| ==> ps[i] == Piece(GzipStoredBytes(cuts[i]), cuts[i])
  {
    seq(|cuts|, i requires 0 <= i < |cuts| => Piece(GzipStoredBytes(cuts[i]), cuts[i]))
  }

  function Concat(cuts: seq<seq<Byte>>): seq<Byte> {
    if cuts == [] then [] else cuts[0] + Concat(cuts[1..])
  }

  /** The file: every piece written as a member of its own. */
  function PackageBytes(cuts: seq<seq<Byte>>): seq<Byte> {
    FileBytes(Pieces(cuts))
  }

  lemma {:induction false} PiecesHold(cuts: seq<seq<Byte>>)
    ensures FileOutput(Pieces(cuts)) == Concat(cuts)
  {
    if cuts != [] {
      assert Pieces(cuts)[1..] == Pieces(cuts[1..]);
      PiecesHold(cuts[1..]);
    }
  }

  lemma {:induction false} PiecesFit(cuts: seq<seq<Byte>>, used: nat, cap: nat)
    requires used + |Concat(cuts)| < cap
    ensures RoomFor(Pieces(cuts), used, cap)
    decreases |cuts|
  {
    hide GzipStoredBytes;
    if cuts != [] {
      assert Pieces(cuts)[1..] == Pieces(cuts[1..]);
      PiecesFit(cuts[1..], used + |cuts[0]|, cap);
    }
  }

  /** For any cut of any archive, with scratch space to spare: the pieces are read back into
      the archive, and the walk reports the files in order. */
  lemma PackageRoundTrip(files: seq<File>, cuts: seq<seq<Byte>>, cap: nat)
    requires AllWritable(files) && Concat(cuts) == BuildTar(files) && |BuildTar(files)| < cap
    requires forall c :: c in cuts ==> |c| <= CHUNK * (MAX_NONFINAL_BLOCKS + 1)
    ensures ReadMembers(PackageBytes(cuts), cap, []) == Ok(BuildTar(files))
    ensures Walk(BuildTar(files), 0) == Walked(Reports(files), true)
  {
    hide ReadMembers, FileBytes, BuildTar, IsMember, Walk;
    var ps := Pieces(cuts);
    PiecesHold(cuts);
    PiecesFit(cuts, 0, cap);
    forall p | p in ps ensures IsMember(p.bytes, p.out) {
      var i :| 0 <= i < |ps| && ps[i] == p;
      WritesAMember(cuts[i]);
    }
    MembersRead(ps, cap, []);
    assert [] + FileOutput(ps) == BuildTar(files);
    TarRoundTrip(files);
  }

  /** `read_apk` up to its list of entries. */
  method ReadApk(data: seq<Byte>, scratch: array<Byte>) returns (r: Outcome, entries: seq<Entry>, complete: bool)
    modifies scratch
    ensures match ReadMembers(data, scratch.Length, [])
      case Ok(out) => if out == [] then r == Failed(Corrupt) else r == Done && Walked(entries, complete) == Walk(out, 0)
      case Err(failure) => r == Failed(failure)
  {
    hide ReadMembers, Walk;
    entries, complete := [], false;
    var total;
    r, total := ReadApkMembers(data, scratch);
    if r == Done {
      entries, complete := WalkArchive(scratch[..total]);
    }
  }
}
