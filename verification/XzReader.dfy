/** The .xz reader as it runs: cursors moved over the file, output appended to a bounded
    buffer, a record kept of every block. */
module XzReader {
  import opened Options
  import opened Bits
  import opened Words
  import opened Vli
  import opened Checksums
  import opened Sinks
  import opened XzModel

  datatype Outcome = Done | Failed(failure: Failure)

  // ---- chunks ---------------------------------------------------------------------------------

  /** The bytes of one chunk; they may not all fit. */
  method PutBytes(d: seq<Byte>, out: Sink)
    requires out.Valid() && !out.full
    modifies out, out.base
    ensures out.Valid() && out.Appends()
    ensures out.full <==> |old(out.Output())| + |d| > out.size
    ensures !out.full ==> out.Output() == old(out.Output()) + d
  {
    ghost var before := out.Output();
    assert d[..0] == [] && before + [] == before;
    for i := 0 to |d|
      invariant out.Valid() && out.Appends()
      invariant out.full <==> |before| + i > out.size
      invariant !out.full ==> out.Output() == before + d[..i]
      invariant out.full ==> out.used == out.size
    {
      assert d[..i + 1] == d[..i] + [d[i]];
      assert before + d[..i] + [d[i]] == before + d[..i + 1];
      out.PutByte(d[i]);
    }
    assert d[..|d|] == d;
  }

  /** What the control byte and the two size bytes announce. */
  datatype Announced = Finish | Bad(failure: Failure) | Copy(size: nat)

  function Announces(d: seq<Byte>, at: nat, dict: bool): Announced {
    if at >= |d| then Bad(Corrupt)
    else if d[at] == 0 then Finish
    else if d[at] < 0xE0 && d[at] != 1 && !dict then Bad(Corrupt)
    else if d[at] >= 0x80 then Bad(Unsupported)
    else if d[at] > 2 || at + 3 > |d| then Bad(Corrupt)
    else
      var size := 256 * d[at + 1] as int + d[at + 2] + 1;
      if at + 3 + size > |d| then Bad(Corrupt) else Copy(size)
  }

  method ReadAnnounced(d: seq<Byte>, at: nat, wasDict: bool) returns (a: Announced, haveDict: bool)
    ensures a == Announces(d, at, wasDict)
    ensures a.Copy? ==> haveDict && at + 3 + a.size <= |d|
  {
    haveDict := wasDict;
    if at >= |d| {
      return Bad(Corrupt), haveDict;
    }
    var control := d[at];
    if control == 0x00 {
      return Finish, haveDict;
    }
    if control >= 0xE0 || control == 0x01 {
      haveDict := true;
    } else if !haveDict {
      return Bad(Corrupt), haveDict;
    }
    if control >= 0x80 {
      return Bad(Unsupported), haveDict;
    }
    if control > 0x02 {
      return Bad(Corrupt), haveDict;
    }
    if at + 3 > |d| {
      return Bad(Corrupt), haveDict;
    }
    var size := 256 * d[at + 1] as int + d[at + 2] + 1;
    if at + 3 + size > |d| {
      return Bad(Corrupt), haveDict;
    }
    return Copy(size), haveDict;
  }

  method Lzma2Chunks(d: seq<Byte>, out: Sink) returns (r: Outcome, used: nat)
    requires out.Valid() && !out.full
    modifies out, out.base
    ensures out.Valid() && out.Appends()
    ensures match Chunks(d, false, old(out.Output()), out.size)
      case Ok(c) => r == Done && !out.full && used == c.used && out.Output() == c.out
      case Err(f) => r == Failed(f)
  {
    hide Chunks, Announces, Longer;
    var at: nat, haveDict := 0, false;
    used := 0;
    ghost var whole := Chunks(d, false, out.Output(), out.size);
    assert d[0..] == d;
    LongerNone(whole);
    while true
      invariant at <= |d| && out.Valid() && !out.full && out.Appends()
      invariant whole == Longer(at, Chunks(d[at..], haveDict, out.Output(), out.size))
      decreases |d| - at
    {
      ChunkStep(d, at, haveDict, out.Output(), out.size);
      var a;
      a, haveDict := ReadAnnounced(d, at, haveDict);
      if a.Finish? {
        return Done, at + 1;
      }
      if a.Bad? {
        return Failed(a.failure), 0;
      }
      PutBytes(d[at + 3..at + 3 + a.size], out);
      if out.full {
        return Failed(TooMany), 0;
      }
      at := at + 3 + a.size;
    }
  }

  lemma LongerNone(r: Result<Chunked>)
    ensures Longer(0, r) == r
  {
  }

  /** One turn of the chunk loop. */
  lemma ChunkStep(d: seq<Byte>, at: nat, dict: bool, out: seq<Byte>, cap: nat)
    requires at <= |d| && |out| <= cap
    ensures var r := Longer(at, Chunks(d[at..], dict, out, cap));
      match Announces(d, at, dict)
      case Bad(f) => r == Err(f)
      case Finish => r == Ok(Chunked(out, at + 1))
      case Copy(size) => (
        && at + 3 + size <= |d|
        && r == if |out| + size > cap then Err(TooMany)
                else Longer(at + 3 + size, Chunks(d[at + 3 + size..], true, out + d[at + 3..at + 3 + size], cap)))
  {
    var s := d[at..];
    if at + 3 <= |d| {
      assert s[0] == d[at] && s[1] == d[at + 1] && s[2] == d[at + 2];
      var size := 256 * d[at + 1] as int + d[at + 2] + 1;
      if at + 3 + size <= |d| {
        assert s[3..3 + size] == d[at + 3..at + 3 + size] && s[3 + size..] == d[at + 3 + size..];
      }
    }
  }

  // ---- the block header -------------------------------------------------------------------------

  method ReadVliAt(h: seq<Byte>, p: nat) returns (ok: bool, next: nat, value: nat)
    ensures match VliAt(h, p)
      case Some(v) => ok && next == p + v.length && value == v.value
      case None => !ok
  {
    hide ParseVli;
    ok, next, value := XzVli(h, |h|, p);
    assert p < |h| ==> h[p..|h|] == h[p..];
  }

  method FilterChain(h: seq<Byte>, start: nat, n: nat) returns (ok: bool, p: nat, first: Filter)
    requires n >= 1
    ensures match ReadFilters(h, start, n, None)
      case Some(fs) => ok && p == fs.end && first == fs.first
      case None => !ok
  {
    hide VliAt;
    p, first, ok := start, Filter(0, 0, 0), true;
    ghost var seen: Option<Filter> := None;
    for f := 0 to n
      invariant seen == if f == 0 then None else Some(first)
      invariant ReadFilters(h, start, n, None) == ReadFilters(h, p, n - f, seen)
      invariant ok
    {
      var id, size, q;
      ok, q, id := ReadVliAt(h, p);
      if !ok {
        return;
      }
      ok, q, size := ReadVliAt(h, q);
      if !ok {
        return;
      }
      if q > |h| || size > |h| - q {
        ok := false;
        return;
      }
      if f == 0 {
        first := Filter(id, size, q);
      }
      seen := Some(first);
      p := q + size;
    }
  }

  method IsZero(d: seq<Byte>, from: nat, to: nat) returns (zero: bool)
    requires to <= |d|
    ensures zero <==> (from < to ==> AllZero(d[from..to]))
  {
    if from >= to {
      return true;
    }
    var k: nat := from;
    while k < to
      invariant from <= k <= to && forall j :: from <= j < k ==> d[j] == 0
    {
      if d[k] != 0 {
        assert d[from..to][k - from] != 0;
        return false;
      }
      k := k + 1;
    }
    return true;
  }

  method OptionalNumber(h: seq<Byte>, p: nat, present: bool) returns (ok: bool, next: nat, value: nat)
    ensures match OptionalVli(h, p, present)
      case Some(v) => ok && next == p + v.length && value == v.value
      case None => !ok
  {
    hide VliAt;
    ok, next, value := true, p, 0;
    if present {
      ok, next, value := ReadVliAt(h, p);
    }
  }

  method ReadBlockHeader(h: seq<Byte>) returns (r: Outcome, sizes: Sizes)
    requires |h| >= 8
    ensures match BlockHeader(h)
      case Ok(s) => r == Done && sizes == s
      case Err(f) => r == Failed(f)
  {
    hide Crc32, LeValue, OptionalVli, ReadFilters, AllZero;
    sizes := Sizes(0, 0);
    var body := |h| - 4;
    var crc := XzCrc32(h[..body], 0);
    var want := ReadLe(h, body, 4);
    assert h[body..body + 4] == h[body..];
    if crc != want || h[1] / 4 % 16 != 0 {
      return Failed(Corrupt), sizes;
    }
    var ok, p, packed := OptionalNumber(h, 2, h[1] / 64 % 2 == 1);
    if !ok {
      return Failed(Corrupt), sizes;
    }
    var plain;
    ok, p, plain := OptionalNumber(h, p, h[1] / 128 == 1);
    if !ok {
      return Failed(Corrupt), sizes;
    }
    var first;
    ok, p, first := FilterChain(h, p, h[1] % 4 + 1);
    if !ok {
      return Failed(Corrupt), sizes;
    }
    if h[1] % 4 != 0 || first.id != 0x21 {
      return Failed(Unsupported), sizes;
    }
    if first.size != 1 || first.props >= |h| || h[first.props] > 40 {
      return Failed(Corrupt), sizes;
    }
    ok := IsZero(h, p, body);
    if !ok {
      return Failed(Corrupt), sizes;
    }
    return Done, Sizes(packed, plain);
  }

  // ---- blocks -----------------------------------------------------------------------------------

  /** The check field against this block's output. */
  method CheckMatches(d: seq<Byte>, q: nat, check: nat, data: seq<Byte>) returns (ok: bool)
    requires q + check <= |d| && (check == 0 || check == 4 || check == 8)
    ensures ok <==> CheckOf(check, data) == LeValue(d[q..q + check])
  {
    hide Crc32, Crc64, LeValue;
    if check == 4 {
      var crc := XzCrc32(data, 0);
      var want := ReadLe(d, q, 4);
      ok := crc == want;
    } else if check == 8 {
      var crc := XzCrc64(data, 0);
      var want := ReadLe(d, q, 8);
      ok := crc == want;
    } else {
      assert d[q..q] == [];
      LeValueOfNothing();
      ok := true;
    }
  }

  method ReadOneBlock(d: seq<Byte>, check: nat, out: Sink) returns (r: Outcome, record: Record, length: nat)
    requires d != [] && d[0] != 0 && (check == 0 || check == 4 || check == 8)
    requires out.Valid() && !out.full
    modifies out, out.base
    ensures out.Valid() && out.Appends()
    ensures match ReadBlock(d, check, old(out.Output()), out.size)
      case Ok(b) => r == Done && !out.full && out.Output() == b.out && record == b.record && length == b.length
      case Err(f) => r == Failed(f)
  {
    hide BlockHeader, Chunks, CheckOf, LeValue, AllZero, Fill;
    record, length := Record(0, 0), 0;
    ghost var before := out.Output();
    var size := 4 * (d[0] as int + 1);
    if size > |d| {
      return Failed(Corrupt), record, length;
    }
    var sizes;
    r, sizes := ReadBlockHeader(d[..size]);
    if r.Failed? {
      return;
    }
    var limit := if sizes.packed != 0 then sizes.packed else |d| - size;
    if limit > |d| - size {
      return Failed(Corrupt), record, length;
    }
    var outBefore := out.used;
    var used;
    r, used := Lzma2Chunks(d[size..size + limit], out);
    if r.Failed? {
      return;
    }
    r, record, length := FinishBlock(d, size, sizes, check, used, outBefore, out, before);
  }

  /** Declared sizes, padding and check of a block whose chunks have been read. */
  method FinishBlock(d: seq<Byte>, size: nat, sizes: Sizes, check: nat, used: nat, outBefore: nat, out: Sink, ghost before: seq<Byte>)
    returns (r: Outcome, record: Record, length: nat)
    requires 8 <= size && size + used <= |d| && (check == 0 || check == 4 || check == 8)
    requires out.Valid() && !out.full && before <= out.Output() && |before| == outBefore
    ensures match BlockTail(d, size, sizes, check, before, Chunked(out.Output(), used))
      case Ok(b) => r == Done && out.Output() == b.out && record == b.record && length == b.length
      case Err(f) => r == Failed(f)
  {
    hide CheckOf, LeValue, AllZero;
    record, length := Record(0, 0), 0;
    var produced := out.used - outBefore;
    if sizes.packed != 0 && used != sizes.packed {
      return Failed(Corrupt), record, length;
    }
    if sizes.plain != 0 && sizes.plain != produced {
      return Failed(Corrupt), record, length;
    }
    var end := size + used;
    var q := end + Fill(end);
    if q > |d| {
      return Failed(Corrupt), record, length;
    }
    var ok := IsZero(d, end, q);
    NothingIsZero(d, end);
    if !ok || q + check > |d| {
      return Failed(Corrupt), record, length;
    }
    out.OutputIsWindow();
    assert out.base[out.origin + outBefore..out.origin + out.used] == out.Output()[outBefore..];
    ok := CheckMatches(d, q, check, out.base[out.origin + outBefore..out.origin + out.used]);
    if !ok {
      return Failed(Corrupt), record, length;
    }
    return Done, Record(end + check, produced), q + check;
  }

  lemma NothingIsZero(d: seq<Byte>, at: nat)
    requires at <= |d|
    ensures AllZero(d[at..at])
  {
  }

  method ReadAllBlocks(data: seq<Byte>, check: nat, out: Sink) returns (r: Outcome, records: seq<Record>, at: nat)
    requires (check == 0 || check == 4 || check == 8) && out.Valid() && !out.full
    modifies out, out.base
    ensures out.Valid() && out.Appends()
    ensures match ReadBlocks(data, check, old(out.Output()), [], out.size)
      case Ok(b) => r == Done && !out.full && out.Output() == b.out && records == b.records && at <= |data| && data[at..] == b.rest
      case Err(f) => r == Failed(f)
  {
    hide ReadBlock;
    records, at := [], 0;
    ghost var whole := ReadBlocks(data, check, out.Output(), [], out.size);
    assert data[0..] == data;
    while true
      invariant at <= |data| && out.Valid() && !out.full && out.Appends()
      invariant whole == ReadBlocks(data[at..], check, out.Output(), records, out.size)
      decreases |data| - at
    {
      if at >= |data| {
        assert data[at..] == [];
        return Failed(Corrupt), records, at;
      }
      assert data[at..][0] == data[at];
      if data[at] == 0x00 {
        return Done, records, at;
      }
      if |records| >= MAX_BLOCKS {
        return Failed(Unsupported), records, at;
      }
      var record, length;
      ghost var d, before := data[at..], out.Output();
      r, record, length := ReadOneBlock(data[at..], check, out);
      if r.Failed? {
        return;
      }
      assert d[length..] == data[at + length..];
      records := records + [record];
      at := at + length;
    }
  }

  // ---- the index and the footer -----------------------------------------------------------------

  method CheckIndex(d: seq<Byte>, records: seq<Record>) returns (ok: bool, size: nat)
    ensures match ReadIndex(d, records)
      case Some(n) => ok && size == n
      case None => !ok
  {
    hide VliAt, Crc32, LeValue, AllZero;
    size := 0;
    var at: nat, n: nat;
    ok, at, n := ReadVliAt(d, 1);
    if !ok || n != |records| {
      return false, 0;
    }
    assert records[0..] == records;
    ghost var start: nat := at;
    for i := 0 to |records|
      invariant ReadRecords(d, start, records) == ReadRecords(d, at, records[i..])
    {
      var unpadded, plain;
      assert records[i..][0] == records[i] && records[i..][1..] == records[i + 1..];
      ok, at, unpadded := ReadVliAt(d, at);
      if !ok {
        return false, 0;
      }
      ok, at, plain := ReadVliAt(d, at);
      if !ok {
        return false, 0;
      }
      if unpadded != records[i].unpadded || plain != records[i].plain {
        return false, 0;
      }
    }
    assert records[|records|..] == [];
    var q := at + Fill(at);
    if at > |d| || q + 4 > |d| {
      return false, 0;
    }
    ok := IsZero(d, at, q);
    NothingIsZero(d, at);
    if !ok {
      return false, 0;
    }
    var crc := XzCrc32(d[..q], 0);
    var want := ReadLe(d, q, 4);
    return crc == want, q + 4;
  }

  method CheckFooter(f: seq<Byte>, index: nat, flags: seq<Byte>) returns (ok: bool)
    requires |f| == 12 && |flags| == 2
    ensures ok <==> FooterOk(f, index, flags)
  {
    hide Crc32, LeValue;
    var crc := XzCrc32(f[4..10], 0);
    var want := ReadLe(f, 0, 4);
    assert f[0..4] == f[..4];
    var size := ReadLe(f, 4, 4);
    assert f[8..10] == flags <==> f[8] == flags[0] && f[9] == flags[1];
    assert f[10..12] == FooterMagic() <==> f[10] == 0x59 && f[11] == 0x5A;
    ok := crc == want && (size + 1) * 4 % 0x1_0000_0000 == index
      && f[8] == flags[0] && f[9] == flags[1] && f[10] == 0x59 && f[11] == 0x5A;
  }

  /** Index, footer and stream padding. */
  method CheckEnd(d: seq<Byte>, records: seq<Record>, flags: seq<Byte>, ghost out: seq<Byte>) returns (ok: bool)
    requires |flags| == 2
    ensures ok <==> match ReadIndex(d, records)
      case Some(n) => ReadEnd(d[n..], flags, n, out) == Ok(out)
      case None => false
    ensures !ok ==> match ReadIndex(d, records)
      case Some(n) => ReadEnd(d[n..], flags, n, out) == Err(Corrupt)
      case None => true
  {
    hide ReadIndex, FooterOk, AllZero;
    var size;
    ok, size := CheckIndex(d, records);
    if !ok {
      return;
    }
    var e := d[size..];
    if |e| < 12 {
      return false;
    }
    ok := CheckFooter(e[..12], size, flags);
    if !ok {
      return;
    }
    if (|e| - 12) % 4 != 0 {
      return false;
    }
    ok := IsZero(e, 12, |e|);
    assert e[12..|e|] == e[12..];
    NothingIsZero(e, 12);
    assert |e| == 12 ==> e[12..] == e[12..12];
  }

  method AfpkgXz(data: seq<Byte>, base: array<Byte>, size: nat) returns (r: Outcome, outLen: nat)
    requires size <= base.Length
    modifies base
    ensures match Xz(data, size)
      case Ok(out) => r == Done && outLen == |out| <= size && base[..outLen] == out
      case Err(f) => r == Failed(f) && outLen == 0
    ensures forall i :: size <= i < base.Length ==> base[i] == old(base[i])
  {
    hide ReadBlocks, ReadIndex, ReadEnd, Crc32, LeValue;
    outLen := 0;
    if |data| < 24 || data[..6] != Magic() {
      return Failed(Invalid), 0;
    }
    var crc := XzCrc32(data[6..8], 0);
    var want := ReadLe(data, 8, 4);
    if crc != want {
      return Failed(Corrupt), 0;
    }
    if data[6] != 0 || data[7] / 16 != 0 {
      return Failed(Unsupported), 0;
    }
    var check := CheckSize(data[7] % 16);
    if check.None? {
      return Failed(Unsupported), 0;
    }
    var out := new Sink(base, 0, size);
    var body := data[12..];
    var records, at;
    r, records, at := ReadAllBlocks(body, check.value, out);
    if r.Failed? {
      return;
    }
    var ok := CheckEnd(body[at..], records, data[6..8], out.Output());
    if !ok {
      return Failed(Corrupt), 0;
    }
    outLen := out.used;
    out.OutputIsWindow();
    EndGives(body[at..], records, data[6..8], out.Output());
  }

  lemma EndGives(d: seq<Byte>, records: seq<Record>, flags: seq<Byte>, out: seq<Byte>)
    ensures match ReadIndex(d, records)
      case Some(n) => ReadEnd(d[n..], flags, n, out) == Ok(out) || ReadEnd(d[n..], flags, n, out) == Err(Corrupt)
      case None => true
  {
    hide ReadIndex, FooterOk, AllZero;
  }
}
