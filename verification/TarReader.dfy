/** The tar reader and writer as they run. */
module TarReader {
  import opened Words
  import opened Bits
  import opened Tar

  method ParseOctalField(p: seq<Byte>) returns (value: nat)
    ensures value == ParseOctal(p)
  {
    value := 0;
    var i := 0;
    assert p[0..] == p;
    while i < |p| && (p[i] == 32 || p[i] == 0)
      invariant i <= |p| && SkipBlank(p[i..]) == SkipBlank(p)
    {
      assert p[i..][1..] == p[i + 1..];
      i := i + 1;
    }
    while i < |p| && 48 <= p[i] <= 55
      invariant i <= |p| && Digits(p[i..], value) == ParseOctal(p)
    {
      assert p[i..][1..] == p[i + 1..];
      value := value * 8 + (p[i] - 48);
      i := i + 1;
    }
  }

  method BlockIsZero(data: seq<Byte>, at: nat) returns (zero: bool)
    requires at + BLOCK <= |data|
    ensures zero <==> ZeroBlock(data, at)
  {
    for i := 0 to BLOCK
      invariant forall k :: at <= k < at + i ==> data[k] == 0
    {
      if data[at + i] != 0 {
        return false;
      }
    }
    return true;
  }

  /** Copies the name field, cuts trailing blanks, stops at the first zero byte, and drops
      every leading "./". */
  method ReadPath(field: seq<Byte>) returns (path: seq<Byte>)
    ensures path == EntryPath(field)
  {
    var raw := field;
    while |raw| > 0 && (raw[|raw| - 1] == 32 || raw[|raw| - 1] == 9 || raw[|raw| - 1] == 13 || raw[|raw| - 1] == 10)
      invariant TrimRight(raw) == TrimRight(field)
      decreases |raw|
    {
      raw := raw[..|raw| - 1];
    }
    var n := 0;
    assert raw[0..] == raw && raw[..0] == [];
    while n < |raw| && raw[n] != 0
      invariant n <= |raw| && CString(raw) == raw[..n] + CString(raw[n..])
    {
      assert raw[n..][1..] == raw[n + 1..];
      assert raw[..n] + ([raw[n]] + CString(raw[n + 1..])) == raw[..n + 1] + CString(raw[n + 1..]);
      n := n + 1;
    }
    path := raw[..n];
    ghost var c := path;
    assert c == CString(raw);
    while |path| >= 2 && path[0] == 46 && path[1] == 47
      invariant Normalise(path) == Normalise(c)
      decreases |path|
    {
      path := path[2..];
    }
  }

  method AfpkgTarNext(data: seq<Byte>, cursor: nat) returns (r: Step)
    ensures r == TarNext(data, cursor)
  {
    hide ParseOctal, EntryPath, RoundUp, ZeroBlock;
    var at := cursor;
    while at + BLOCK <= |data|
      invariant SkipZeros(data, at) == SkipZeros(data, cursor)
      decreases |data| - at
    {
      var zero := BlockIsZero(data, at);
      if !zero {
        break;
      }
      at := at + BLOCK;
    }
    assert SkipZeros(data, cursor) == at;
    if at + BLOCK > |data| {
      return End;
    }
    var header := data[at..at + BLOCK];
    var size := ParseOctalField(header[124..136]);
    var kind := header[156];
    var name := ReadPath(header[..100]);
    var payload := at + BLOCK;
    if size > |data| || payload > |data| || |data| - payload < size {
      return Bad;
    }
    var advance := RoundUp(BLOCK + size);
    if kind == 76 || kind == 75 || kind == 120 || kind == 103 {
      return Skipped(at + advance);
    }
    var isDir := kind == 53 || (name != [] && name[|name| - 1] == 47);
    var isFile := kind == 48 || kind == 0;
    if !isDir && !isFile {
      return Skipped(at + advance);
    }
    var mode := ParseOctalField(header[100..108]);
    var found := if isDir then 0 else size;
    return Found(Entry(name, found, mode, isDir, data[payload..payload + found]), at + advance);
  }

  /** The walking loop of the package reader. */
  method WalkArchive(data: seq<Byte>) returns (entries: seq<Entry>, complete: bool)
    ensures Walked(entries, complete) == Walk(data, 0)
  {
    hide TarNext;
    var cursor := 0;
    entries := [];
    ghost var all := Walk(data, 0);
    while true
      invariant var rest := Walk(data, cursor);
        entries + rest.entries == all.entries && rest.complete == all.complete
      decreases if cursor <= |data| then |data| - cursor + 1 else 0
    {
      var step := AfpkgTarNext(data, cursor);
      match step
      case End => return entries, true;
      case Bad => return entries, false;
      case Skipped(next) => cursor := next;
      case Found(entry, next) =>
        assert entries + ([entry] + Walk(data, next).entries) == entries + [entry] + Walk(data, next).entries;
        entries := entries + [entry];
        cursor := next;
    }
  }

  // ---- the writer -----------------------------------------------------------------------------

  /** `header[at:at + |field|] = field` */
  function Splice(s: seq<Byte>, at: nat, field: seq<Byte>): (r: seq<Byte>)
    requires at + |field| <= |s|
    ensures |r| == |s|
  {
    s[..at] + field + s[at + |field|..]
  }

  lemma SpliceNext(front: seq<Byte>, room: nat, field: seq<Byte>)
    requires |field| <= room
    ensures Splice(front + Zeros(room), |front|, field) == front + field + Zeros(room - |field|)
  {
  }

  lemma SpliceAfterGap(front: seq<Byte>, gap: nat, room: nat)
    ensures front + Zeros(gap + room) == front + Zeros(gap) + Zeros(room)
  {
  }

  method MakeFront(f: File) returns (header: seq<Byte>)
    requires Writable(f)
    ensures header == HeaderFront(f) + Zeros(364)
  {
    hide TarOctal, Padded, Splice, Zeros;
    header := Zeros(BLOCK);
    assert header == [] + Zeros(BLOCK) && Padded(f.name, 100) == [] + Padded(f.name, 100);
    ghost var done: seq<Byte> := [];
    SpliceNext(done, 512, Padded(f.name, 100));
    header := Splice(header, 0, Padded(f.name, 100));
    done := Padded(f.name, 100);
    SpliceNext(done, 412, TarOctal(f.mode, 8));
    header := Splice(header, 100, TarOctal(f.mode, 8));
    done := done + TarOctal(f.mode, 8);
    SpliceNext(done, 404, TarOctal(0, 8));
    header := Splice(header, 108, TarOctal(0, 8));
    done := done + TarOctal(0, 8);
    SpliceNext(done, 396, TarOctal(0, 8));
    header := Splice(header, 116, TarOctal(0, 8));
    done := done + TarOctal(0, 8);
    SpliceNext(done, 388, TarOctal(|f.contents|, 12));
    header := Splice(header, 124, TarOctal(|f.contents|, 12));
    done := done + TarOctal(|f.contents|, 12);
    SpliceNext(done, 376, TarOctal(FIXED_MTIME, 12));
    header := Splice(header, 136, TarOctal(FIXED_MTIME, 12));
  }

  method MakeBack(front: seq<Byte>, start: seq<Byte>) returns (header: seq<Byte>)
    requires |front| == 156 && start == front + Zeros(356)
    ensures header == front + HeaderBack()
  {
    hide Padded, Splice, Zeros;
    SpliceNext(front, 356, [48]);
    header := Splice(start, 156, [48]);
    ghost var done := front + [48];
    SpliceAfterGap(done, 100, 255);
    done := done + Zeros(100);
    SpliceNext(done, 255, Ustar());
    header := Splice(header, 257, Ustar());
    done := done + Ustar();
    SpliceNext(done, 249, [48, 48]);
    header := Splice(header, 263, [48, 48]);
    done := done + [48, 48];
    SpliceNext(done, 247, Padded(Root(), 32));
    header := Splice(header, 265, Padded(Root(), 32));
    done := done + Padded(Root(), 32);
    SpliceNext(done, 215, Padded(Root(), 32));
    header := Splice(header, 297, Padded(Root(), 32));
    done := done + Padded(Root(), 32);
    assert header == done + Zeros(183);
    assert header == front + HeaderBack();
  }

  method SumBytes(s: seq<Byte>) returns (n: nat)
    ensures n == Sum(s)
  {
    n := 0;
    assert s[0..] == s;
    for i := 0 to |s|
      invariant n + Sum(s[i..]) == Sum(s)
    {
      assert s[i..][1..] == s[i + 1..];
      n := n + s[i];
    }
  }

  /** Field after field into a zeroed block, the checksum last. */
  method MakeHeader(f: File) returns (header: seq<Byte>)
    requires Writable(f)
    ensures header == TarHeader(f)
  {
    hide HeaderFront, HeaderBack, Octal, Zeros, Sum;
    header := MakeFront(f);
    SpliceNext(HeaderFront(f), 364, Blanks());
    header := Splice(header, 148, Blanks());
    header := MakeBack(HeaderFront(f) + Blanks(), header);
    var checksum := SumBytes(header);
    var text := Octal(checksum, 6) + [0, 32];
    header := Splice(header, 148, text);
  }

  method BuildArchive(files: seq<File>) returns (out: seq<Byte>)
    requires AllWritable(files)
    ensures out == BuildTar(files)
  {
    hide TarHeader, Zeros, Slack;
    out := [];
    assert files[0..] == files;
    for i := 0 to |files|
      invariant out + TarMembers(files[i..]) == TarMembers(files)
    {
      ghost var before := out;
      assert files[i..][1..] == files[i + 1..];
      var header := MakeHeader(files[i]);
      out := out + header;
      out := out + files[i].contents;
      out := out + Zeros(Slack(|files[i].contents|));
      assert out == before + TarMember(files[i]);
      assert before + (TarMember(files[i]) + TarMembers(files[i + 1..])) == out + TarMembers(files[i + 1..]);
    }
    assert out == TarMembers(files);
    out := out + Zeros(2 * BLOCK);
  }
}
