/** The writer's and the reader's loops over names. */
module FatNameWriter {
  import opened Bits
  import opened FatNames
  import opened FatDirectories

  method ShortNameChecksum(short: seq<Byte>) returns (sum: Byte)
    ensures sum == Checksum(short, 0)
  {
    sum := 0;
    assert short[0..] == short;
    for i := 0 to |short|
      invariant Checksum(short[i..], sum) == Checksum(short, 0)
    {
      assert short[i..][0] == short[i] && short[i..][1..] == short[i + 1..];
      sum := (128 * (sum % 2) + sum / 2 + short[i]) % 256;
    }
  }

  /** The name's units, a zero, and padding to whole fragments. */
  method PaddedUnits(name: seq<Byte>) returns (units: seq<Unit>)
    ensures |units| == 13 * Fragments(name) && forall k :: 0 <= k < |units| ==> units[k] == UnitOf(name, k)
  {
    units := [];
    for k := 0 to |name|
      invariant |units| == k && forall j :: 0 <= j < k ==> units[j] == UnitOf(name, j)
    {
      units := units + [name[k]];
    }
    units := units + [0];
    while |units| % 13 != 0
      invariant |name| < |units| <= 13 * Fragments(name)
      invariant forall j :: 0 <= j < |units| ==> units[j] == UnitOf(name, j)
      decreases 13 * Fragments(name) - |units|
    {
      units := units + [0xFFFF];
    }
  }

  /** One entry, unit after unit into its three runs. */
  method FillEntry(ordinal: Byte, sum: Byte, piece: seq<Unit>) returns (entry: Slot)
    requires |piece| == FRAGMENT
    ensures entry == LfnEntry(ordinal, sum, piece)
  {
    var low, middle, high: seq<Byte> := [], [], [];
    for i := 0 to FRAGMENT
      invariant low == UnitBytes(piece[..if i < 5 then i else 5])
      invariant middle == UnitBytes(piece[5..if i < 5 then 5 else if i < 11 then i else 11])
      invariant high == UnitBytes(piece[11..if i < 11 then 11 else i])
    {
      var unit: seq<Byte> := [piece[i] % 256, piece[i] / 256];
      if i < 5 {
        UnitBytesSnoc(piece[..i], piece[i]);
        assert piece[..i + 1] == piece[..i] + [piece[i]];
        low := low + unit;
      } else if i < 11 {
        UnitBytesSnoc(piece[5..i], piece[i]);
        assert piece[5..i + 1] == piece[5..i] + [piece[i]];
        middle := middle + unit;
      } else {
        UnitBytesSnoc(piece[11..i], piece[i]);
        assert piece[11..i + 1] == piece[11..i] + [piece[i]];
        high := high + unit;
      }
    }
    assert piece[11..13] == piece[11..];
    entry := [ordinal] + low + [0x0F, 0, sum] + middle + [0, 0] + high;
  }

  lemma {:induction false} UnitBytesSnoc(u: seq<Unit>, x: Unit)
    ensures UnitBytes(u + [x]) == UnitBytes(u) + [x % 256, x / 256]
  {
    if u == [] {
      assert u + [x] == [x] && [x][1..] == [];
    } else {
      assert (u + [x])[1..] == u[1..] + [x];
      UnitBytesSnoc(u[1..], x);
    }
  }

  /** The entry of one fragment; the last one of the name is flagged. */
  method ChunkEntry(ghost name: seq<Byte>, units: seq<Unit>, chunk: nat, count: nat, sum: Byte) returns (entry: Slot)
    requires chunk < count < 64 && 13 * count == |units|
    requires forall k :: 0 <= k < |units| ==> units[k] == UnitOf(name, k)
    ensures entry == LfnEntry(Ordinal(chunk, count), sum, Piece(name, chunk))
  {
    hide LfnEntry, Piece;
    var piece := units[13 * chunk..13 * chunk + 13];
    PieceIs(name, chunk, piece);
    var ordinal: Byte := chunk + 1;
    if chunk == count - 1 {
      ordinal := ordinal + 0x40;
    }
    entry := FillEntry(ordinal, sum, piece);
  }

  /** The entries of a long name: built in order, stored in reverse. */
  method LongNameEntries(name: seq<Byte>, sum: Byte) returns (raw: seq<Slot>)
    requires Fragments(name) < 64
    ensures raw == LfnEntries(name, sum)
  {
    var units := PaddedUnits(name);
    var count := |units| / 13;
    hide LfnEntry, Piece, Fragments, Ordinal;
    raw := [];
    for chunk := 0 to count
      invariant count == Fragments(name) && raw == LfnDown(name, sum, chunk)
    {
      var entry := ChunkEntry(name, units, chunk, count, sum);
      raw := [entry] + raw;
    }
  }

  lemma PieceIs(name: seq<Byte>, i: nat, u: seq<Unit>)
    requires |u| == FRAGMENT && forall k :: 0 <= k < FRAGMENT ==> u[k] == UnitOf(name, 13 * i + k)
    ensures u == Piece(name, i)
  {
  }
}
