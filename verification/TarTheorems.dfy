/** What the writer puts into an archive is what the reader reports. */
module TarTheorems {
  import opened Words
  import opened Bits
  import opened Tar

  // ---- numbers --------------------------------------------------------------------------------

  lemma {:induction false} DigitsConcat(d: seq<Byte>, rest: seq<Byte>, value: nat)
    requires forall i :: 0 <= i < |d| ==> IsDigit(d[i])
    ensures Digits(d + rest, value) == Digits(rest, Digits(d, value))
    decreases |d|
  {
    if d == [] {
      assert d + rest == rest;
    } else {
      assert (d + rest)[1..] == d[1..] + rest;
      DigitsConcat(d[1..], rest, 8 * value + (d[0] - 48));
    }
  }

  lemma {:induction false} DigitsOfOctal(v: nat, n: nat)
    requires v < Pow8(n)
    ensures Digits(Octal(v, n), 0) == v
  {
    if n > 0 {
      DigitsOfOctal(v / 8, n - 1);
      DigitsConcat(Octal(v / 8, n - 1), [48 + v % 8], 0);
      var last: seq<Byte> := [48 + v % 8];
      assert last[1..] == [];
      assert Digits(last, v / 8) == 8 * (v / 8) + v % 8;
    }
  }

  /** A number that fits its field reads back. */
  lemma OctalRoundTrip(v: nat, width: nat)
    requires width > 1 && v < Pow8(width - 1)
    ensures ParseOctal(TarOctal(v, width)) == v
  {
    var d := Octal(v, width - 1);
    assert TarOctal(v, width)[0] == d[0];
    assert SkipBlank(TarOctal(v, width)) == TarOctal(v, width);
    DigitsConcat(d, [0], 0);
    DigitsOfOctal(v, width - 1);
    assert Digits([0], v) == v;
  }

  // ---- names ----------------------------------------------------------------------------------

  lemma {:induction false} CStringOfPadded(s: seq<Byte>, n: nat)
    requires 0 !in s
    ensures CString(s + Zeros(n)) == s
  {
    if s == [] {
      assert s + Zeros(n) == Zeros(n);
    } else {
      assert (s + Zeros(n))[1..] == s[1..] + Zeros(n);
      CStringOfPadded(s[1..], n);
    }
  }

  lemma {:induction false} TrimKeepsNonzero(s: seq<Byte>)
    requires 0 !in s
    ensures 0 !in TrimRight(s)
  {
    if s != [] && IsSpace(s[|s| - 1]) {
      TrimKeepsNonzero(s[..|s| - 1]);
    }
  }

  /** Trailing blanks of a name are lost exactly when the name fills its field. */
  function ReportedName(name: seq<Byte>): seq<Byte> {
    Normalise(if |name| == 100 then TrimRight(name) else name)
  }

  lemma NameRoundTrip(name: seq<Byte>)
    requires |name| <= 100 && 0 !in name
    ensures EntryPath(Padded(name, 100)) == ReportedName(name)
  {
    if |name| == 100 {
      assert Padded(name, 100) == name;
      TrimKeepsNonzero(name);
      assert TrimRight(name) + Zeros(0) == TrimRight(name);
      CStringOfPadded(TrimRight(name), 0);
    } else {
      assert Padded(name, 100)[99] == 0;
      CStringOfPadded(name, 100 - |name|);
    }
  }

  // ---- one entry ------------------------------------------------------------------------------

  /** A file is reported as it was written; a name that ends in a slash makes it a directory,
      whose contents are not reported. */
  function Report(f: File): Entry {
    var path := ReportedName(f.name);
    if path != [] && path[|path| - 1] == 47 then Entry(path, 0, f.mode, true, [])
    else Entry(path, |f.contents|, f.mode, false, f.contents)
  }

  lemma HeaderFields(f: File)
    requires Writable(f)
    ensures var h := TarHeader(f);
      && h[..100] == Padded(f.name, 100) && h[100..108] == TarOctal(f.mode, 8)
      && h[124..136] == TarOctal(|f.contents|, 12) && h[156] == 48 && h[257] == 117
  {
    hide Padded, TarOctal, Checksum, Octal;
    var h, front, back := TarHeader(f), HeaderFront(f), HeaderBack();
    assert h[..148] == front && h[156..] == back;
    assert front[..100] == Padded(f.name, 100) && front[100..108] == TarOctal(f.mode, 8);
    assert front[124..136] == TarOctal(|f.contents|, 12);
    assert h[..100] == h[..148][..100] && h[100..108] == h[..148][100..108] && h[124..136] == h[..148][124..136];
    assert h[156] == back[0] && h[257] == back[101];
  }

  lemma SlackFills(n: nat)
    ensures RoundUp(BLOCK + n) == BLOCK + n + Slack(n)
  {
  }

  lemma EntryRead(data: seq<Byte>, at: nat, f: File)
    requires Writable(f) && at + |TarMember(f)| <= |data| && data[at..at + |TarMember(f)|] == TarMember(f)
    ensures TarNext(data, at) == Found(Report(f), at + |TarMember(f)|)
  {
    var m, h, n := TarMember(f), TarHeader(f), |f.contents|;
    HeaderFields(f);
    OctalRoundTrip(n, 12);
    OctalRoundTrip(f.mode, 8);
    assert 0 !in f.name;
    NameRoundTrip(f.name);
    SlackFills(n);
    hide TarHeader, ParseOctal, EntryPath, RoundUp, Slack, ReportedName, TarOctal, Padded, Zeros;
    Held(data, at, h, f.contents, Zeros(Slack(n)));
    assert data[at + 257] == data[at..at + BLOCK][257];
  }

  lemma Held(data: seq<Byte>, at: nat, a: seq<Byte>, b: seq<Byte>, c: seq<Byte>)
    requires at + |a + b + c| <= |data| && data[at..at + |a + b + c|] == a + b + c
    ensures data[at..at + |a|] == a && data[at + |a|..at + |a| + |b|] == b
  {
    var m := data[at..at + |a + b + c|];
    assert m[..|a|] == a && m[|a|..|a| + |b|] == b;
    forall i | 0 <= i < |b| ensures data[at + |a| + i] == b[i] {
      assert m[|a| + i] == data[at + |a| + i];
    }
  }

  // ---- the archive ----------------------------------------------------------------------------

  function Reports(fs: seq<File>): seq<Entry> {
    if fs == [] then [] else [Report(fs[0])] + Reports(fs[1..])
  }

  lemma {:induction false} ArchiveEnds(data: seq<Byte>, at: nat)
    requires at <= |data| && forall i :: at <= i < |data| ==> data[i] == 0
    ensures TarNext(data, at) == End
    decreases |data| - at
  {
    if at + BLOCK <= |data| {
      ArchiveEnds(data, at + BLOCK);
      assert SkipZeros(data, at) == SkipZeros(data, at + BLOCK);
    }
  }

  lemma {:induction false} WalkFrom(data: seq<Byte>, at: nat, fs: seq<File>)
    requires AllWritable(fs) && at <= |data| && data[at..] == BuildTar(fs)
    ensures Walk(data, at) == Walked(Reports(fs), true)
    decreases |fs|
  {
    hide TarNext, TarMember, Report;
    if fs == [] {
      forall i | at <= i < |data| ensures data[i] == 0 {
        assert data[i] == data[at..][i - at];
      }
      ArchiveEnds(data, at);
    } else {
      var m := TarMember(fs[0]);
      assert data[at..] == m + BuildTar(fs[1..]);
      assert data[at..at + |m|] == data[at..][..|m|] == m;
      assert data[at + |m|..] == data[at..][|m|..];
      EntryRead(data, at, fs[0]);
      WalkFrom(data, at + |m|, fs[1..]);
    }
  }

  /** Round trip: the files in order, with their contents and modes, and a clean end. */
  lemma TarRoundTrip(fs: seq<File>)
    requires AllWritable(fs)
    ensures Walk(BuildTar(fs), 0) == Walked(Reports(fs), true)
  {
    assert BuildTar(fs)[0..] == BuildTar(fs);
    WalkFrom(BuildTar(fs), 0, fs);
  }

  /** A file is reported unchanged exactly when its name has no leading "./", does not end in
      a slash, and does not end in a blank if it fills its field. */
  lemma ReportedUnchanged(f: File)
    requires Writable(f)
    ensures Report(f) == Entry(f.name, |f.contents|, f.mode, false, f.contents) <==>
      && !([46, 47] <= f.name)
      && (f.name != [] ==> f.name[|f.name| - 1] != 47)
      && (|f.name| == 100 ==> !IsSpace(f.name[99]))
  {
    if [46, 47] <= f.name {
      assert f.name[..2] == [46, 47];
    }
  }

  /** No walk visits the same place twice: every step moves on by at least a block. */
  lemma CursorGrows(data: seq<Byte>, cursor: nat)
    ensures var s := TarNext(data, cursor);
      s.Skipped? || s.Found? ==> cursor + BLOCK <= s.next && (s.next - cursor) % BLOCK == 0
  {
    SkipsBlocks(data, cursor);
  }

  lemma {:induction false} SkipsBlocks(data: seq<Byte>, at: nat)
    ensures (SkipZeros(data, at) - at) % BLOCK == 0
    decreases |data| - at
  {
    if at + BLOCK <= |data| && ZeroBlock(data, at) {
      SkipsBlocks(data, at + BLOCK);
    }
  }
}
