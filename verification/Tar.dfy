/** Archives of 512-byte blocks: the reader, step by step, and the reference writer. */
module Tar {
  import opened Words
  import opened Bits

  const BLOCK: nat := 512

  // ---- fields ---------------------------------------------------------------------------------

  predicate IsDigit(b: Byte) {
    48 <= b <= 55
  }

  /** Leading blanks and zero bytes are not part of a number. */
  function SkipBlank(p: seq<Byte>): (r: seq<Byte>)
    ensures |r| <= |p|
  {
    if p != [] && (p[0] == 32 || p[0] == 0) then SkipBlank(p[1..]) else p
  }

  function Digits(p: seq<Byte>, value: nat): nat {
    if p != [] && IsDigit(p[0]) then Digits(p[1..], 8 * value + (p[0] - 48)) else value
  }

  function ParseOctal(p: seq<Byte>): nat {
    Digits(SkipBlank(p), 0)
  }

  predicate IsSpace(b: Byte) {
    b == 32 || b == 9 || b == 13 || b == 10
  }

  function TrimRight(s: seq<Byte>): (r: seq<Byte>)
    ensures r <= s
  {
    if s != [] && IsSpace(s[|s| - 1]) then TrimRight(s[..|s| - 1]) else s
  }

  /** The text before the first zero byte. */
  function CString(s: seq<Byte>): (r: seq<Byte>)
    ensures |r| <= |s|
  {
    if s == [] || s[0] == 0 then [] else [s[0]] + CString(s[1..])
  }

  /** Without any leading "./". */
  function Normalise(s: seq<Byte>): (r: seq<Byte>)
    ensures |r| <= |s|
  {
    if |s| >= 2 && s[0] == 46 && s[1] == 47 then Normalise(s[2..]) else s
  }

  function EntryPath(field: seq<Byte>): seq<Byte> {
    Normalise(CString(TrimRight(field)))
  }

  function RoundUp(n: nat): (r: nat)
    ensures n <= r < n + BLOCK && r % BLOCK == 0
  {
    (n + (BLOCK - 1)) / BLOCK * BLOCK
  }

  // ---- reading --------------------------------------------------------------------------------

  datatype Entry = Entry(path: seq<Byte>, size: nat, mode: nat, dir: bool, contents: seq<Byte>)

  datatype Step = End | Bad | Skipped(next: nat) | Found(entry: Entry, next: nat)

  predicate ZeroBlock(data: seq<Byte>, at: nat)
    requires at + BLOCK <= |data|
  {
    forall i :: at <= i < at + BLOCK ==> data[i] == 0
  }

  function SkipZeros(data: seq<Byte>, at: nat): (r: nat)
    ensures at <= r && (r == at || r <= |data|)
    decreases |data| - at
  {
    if at + BLOCK <= |data| && ZeroBlock(data, at) then SkipZeros(data, at + BLOCK) else at
  }

  predicate IsDirectory(kind: Byte, path: seq<Byte>) {
    kind == 53 || (path != [] && path[|path| - 1] == 47)
  }

  /** The entry at `cursor`, past any zero blocks. */
  function TarNext(data: seq<Byte>, cursor: nat): (r: Step)
    ensures r.Skipped? || r.Found? ==> cursor + BLOCK <= |data| && r.next >= cursor + BLOCK
  {
    var at := SkipZeros(data, cursor);
    if at + BLOCK > |data| then End
    else
      var header := data[at..at + BLOCK];
      var size := ParseOctal(header[124..136]);
      var kind := header[156];
      var path := EntryPath(header[..100]);
      var payload := at + BLOCK;
      if |data| - payload < size then Bad
      else
        var next := at + RoundUp(BLOCK + size);
        if kind == 76 || kind == 75 || kind == 120 || kind == 103 then Skipped(next)
        else if IsDirectory(kind, path) then Found(Entry(path, 0, ParseOctal(header[100..108]), true, []), next)
        else if kind == 48 || kind == 0 then
          Found(Entry(path, size, ParseOctal(header[100..108]), false, data[payload..payload + size]), next)
        else Skipped(next)
  }

  datatype Walked = Walked(entries: seq<Entry>, complete: bool)

  /** Entry after entry to the end of the archive, or to the first that is broken. */
  function Walk(data: seq<Byte>, cursor: nat): Walked
    decreases if cursor <= |data| then |data| - cursor + 1 else 0
  {
    match TarNext(data, cursor)
    case End => Walked([], true)
    case Bad => Walked([], false)
    case Skipped(next) => Walk(data, next)
    case Found(entry, next) =>
      var rest := Walk(data, next);
      Walked([entry] + rest.entries, rest.complete)
  }

  // ---- writing --------------------------------------------------------------------------------

  const FIXED_MTIME: nat := 1577836800

  datatype File = File(name: seq<Byte>, contents: seq<Byte>, mode: nat)

  function Pow8(n: nat): (p: nat)
    ensures p >= 1
  {
    if n == 0 then 1 else 8 * Pow8(n - 1)
  }

  /** `n` octal digits. */
  function Octal(v: nat, n: nat): (s: seq<Byte>)
    ensures |s| == n && forall i :: 0 <= i < n ==> IsDigit(s[i])
  {
    if n == 0 then [] else Octal(v / 8, n - 1) + [48 + v % 8]
  }

  /** Zero-padded octal with a zero byte at the end. */
  function TarOctal(v: nat, width: nat): (s: seq<Byte>)
    requires width > 0
    ensures |s| == width
  {
    Octal(v, width - 1) + [0]
  }

  /** A name of ASCII characters that fits its field, and numbers that fit theirs. */
  predicate Writable(f: File) {
    && |f.name| <= 100 && (forall i :: 0 <= i < |f.name| ==> 0 < f.name[i] < 128)
    && f.mode < Pow8(7) && |f.contents| < Pow8(11)
  }

  function Sum(s: seq<Byte>): (n: nat)
    ensures n <= 255 * |s|
  {
    if s == [] then 0 else s[0] + Sum(s[1..])
  }

  function Padded(s: seq<Byte>, n: nat): (r: seq<Byte>)
    requires |s| <= n
    ensures |r| == n
  {
    s + Zeros(n - |s|)
  }

  function Ustar(): seq<Byte> {
    [117, 115, 116, 97, 114, 0]
  }

  function Root(): seq<Byte> {
    [114, 111, 111, 116]
  }

  /** The fields before the checksum and those after it. */
  function HeaderFront(f: File): (s: seq<Byte>)
    requires Writable(f)
    ensures |s| == 148
  {
    Padded(f.name, 100) + TarOctal(f.mode, 8) + TarOctal(0, 8) + TarOctal(0, 8) +
    TarOctal(|f.contents|, 12) + TarOctal(FIXED_MTIME, 12)
  }

  function HeaderBack(): (s: seq<Byte>)
    ensures |s| == 356
  {
    [48] + Zeros(100) + Ustar() + [48, 48] + Padded(Root(), 32) + Padded(Root(), 32) + Zeros(183)
  }

  /** The checksum is taken with its own field blank. */
  function Checksum(f: File): (n: nat)
    requires Writable(f)
    ensures n < Pow8(6)
  {
    assert Pow8(6) == 262144;
    Sum(HeaderFront(f) + Blanks() + HeaderBack())
  }

  function Blanks(): seq<Byte> {
    [32, 32, 32, 32, 32, 32, 32, 32]
  }

  function TarHeader(f: File): (s: seq<Byte>)
    requires Writable(f)
    ensures |s| == BLOCK
  {
    HeaderFront(f) + Octal(Checksum(f), 6) + [0, 32] + HeaderBack()
  }

  /** How much fills the last block of `n` bytes. */
  function Slack(n: nat): (r: nat)
    ensures r < BLOCK && (n + r) % BLOCK == 0
  {
    if n % BLOCK == 0 then 0 else BLOCK - n % BLOCK
  }

  function TarMember(f: File): seq<Byte>
    requires Writable(f)
  {
    TarHeader(f) + f.contents + Zeros(Slack(|f.contents|))
  }

  predicate AllWritable(fs: seq<File>) {
    forall f :: f in fs ==> Writable(f)
  }

  function TarMembers(fs: seq<File>): seq<Byte>
    requires AllWritable(fs)
  {
    if fs == [] then [] else TarMember(fs[0]) + TarMembers(fs[1..])
  }

  function BuildTar(fs: seq<File>): seq<Byte>
    requires AllWritable(fs)
  {
    TarMembers(fs) + Zeros(2 * BLOCK)
  }
}
