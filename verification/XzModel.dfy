/** The .xz container as this build reads it (sections 2, 3 and 4 of The .xz File Format):
    blocks of uncompressed LZMA2 chunks, an index that is checked against them, a footer. */
module XzModel {
  import opened Options
  import opened Bits
  import opened Words
  import opened Vli
  import opened Checksums

  datatype Failure = Invalid | Corrupt | Unsupported | TooMany

  datatype Result<+T> = Ok(value: T) | Err(failure: Failure)

  const MAX_BLOCKS: nat := 256

  // ---- chunks ---------------------------------------------------------------------------------

  datatype Chunked = Chunked(out: seq<Byte>, used: nat)

  function Longer(n: nat, r: Result<Chunked>): Result<Chunked> {
    match r
    case Ok(c) => Ok(Chunked(c.out, c.used + n))
    case Err(f) => Err(f)
  }

  /** The chunk stream at the front of `d`; until a dictionary reset nothing else may come. */
  function Chunks(d: seq<Byte>, dict: bool, out: seq<Byte>, cap: nat): (r: Result<Chunked>)
    ensures r.Ok? ==> 1 <= r.value.used <= |d| && out <= r.value.out && (|out| <= cap ==> |r.value.out| <= cap)
    decreases |d|
  {
    if d == [] then Err(Corrupt)
    else if d[0] == 0 then Ok(Chunked(out, 1))
    else if d[0] < 0xE0 && d[0] != 1 && !dict then Err(Corrupt)
    else if d[0] >= 0x80 then Err(Unsupported)
    else if d[0] > 2 || |d| < 3 then Err(Corrupt)
    else
      var size := 256 * d[1] as int + d[2] + 1;
      if |d| - 3 < size then Err(Corrupt)
      else if |out| + size > cap then Err(TooMany)
      else Longer(3 + size, Chunks(d[3 + size..], true, out + d[3..3 + size], cap))
  }

  // ---- the block header -------------------------------------------------------------------------

  /** A number at `p`, within `h`. */
  function VliAt(h: seq<Byte>, p: nat): Option<Vli> {
    if p < |h| then ParseVli(h[p..], true, VLI_BYTES) else None
  }

  datatype Sizes = Sizes(packed: nat, plain: nat)

  /** An optional number: zero when it is absent. */
  function OptionalVli(h: seq<Byte>, p: nat, present: bool): Option<Vli> {
    if present then VliAt(h, p) else Some(Vli(0, 0))
  }

  datatype Filter = Filter(id: nat, size: nat, props: nat)

  datatype Filters = Filters(first: Filter, end: nat)

  /** `n` filters from `p` on; only the first is remembered. */
  function ReadFilters(h: seq<Byte>, p: nat, n: nat, first: Option<Filter>): Option<Filters>
    decreases n
  {
    if n == 0 then if first.Some? then Some(Filters(first.value, p)) else None
    else match VliAt(h, p)
      case None => None
      case Some(id) =>
        match VliAt(h, p + id.length)
        case None => None
        case Some(size) =>
          var props := p + id.length + size.length;
          if props > |h| || |h| - props < size.value then None
          else ReadFilters(h, props + size.value, n - 1, if first.Some? then first else Some(Filter(id.value, size.value, props)))
  }

  predicate AllZero(d: seq<Byte>) {
    forall i :: 0 <= i < |d| ==> d[i] == 0
  }

  /** The bytes of a block header, its check last. */
  function BlockHeader(h: seq<Byte>): Result<Sizes>
    requires |h| >= 8
  {
    var body := |h| - 4;
    if Crc32(h[..body], 0) != LeValue(h[body..]) || h[1] / 4 % 16 != 0 then Err(Corrupt)
    else match OptionalVli(h, 2, h[1] / 64 % 2 == 1)
      case None => Err(Corrupt)
      case Some(packed) =>
        match OptionalVli(h, 2 + packed.length, h[1] / 128 == 1)
        case None => Err(Corrupt)
        case Some(plain) =>
          match ReadFilters(h, 2 + packed.length + plain.length, h[1] % 4 + 1, None)
          case None => Err(Corrupt)
          case Some(fs) =>
            if h[1] % 4 != 0 || fs.first.id != 0x21 then Err(Unsupported)
            else if fs.first.size != 1 || fs.first.props >= |h| || h[fs.first.props] > 40 then Err(Corrupt)
            else if fs.end < body && !AllZero(h[fs.end..body]) then Err(Corrupt)
            else Ok(Sizes(packed.value, plain.value))
  }

  // ---- blocks -----------------------------------------------------------------------------------

  /** How many bytes fill up a multiple of four. */
  function Fill(n: nat): (p: nat)
    ensures p < 4 && (n + p) % 4 == 0
  {
    if n % 4 == 0 then 0 else 4 - n % 4
  }

  /** The size of a check field, by its number. */
  function CheckSize(id: nat): Option<nat> {
    if id == 0 then Some(0) else if id == 1 then Some(4) else if id == 4 then Some(8) else None
  }

  /** The value a check field of that size must have. */
  function CheckOf(size: nat, data: seq<Byte>): nat {
    if size == 4 then Crc32(data, 0) else if size == 8 then Crc64(data, 0) else 0
  }

  /** What the index is to say of a block. */
  datatype Record = Record(unpadded: nat, plain: nat)

  datatype Block = Block(out: seq<Byte>, record: Record, length: nat)

  /** The block at the front of `d`. */
  function ReadBlock(d: seq<Byte>, check: nat, out: seq<Byte>, cap: nat): (r: Result<Block>)
    requires d != [] && d[0] != 0
    ensures r.Ok? ==> 8 <= r.value.length <= |d|
  {
    var size := 4 * (d[0] as int + 1);
    if size > |d| then Err(Corrupt)
    else match BlockHeader(d[..size])
      case Err(f) => Err(f)
      case Ok(sizes) => BlockBody(d, size, sizes, check, out, cap)
  }

  function BlockBody(d: seq<Byte>, size: nat, sizes: Sizes, check: nat, out: seq<Byte>, cap: nat): (r: Result<Block>)
    requires 8 <= size <= |d|
    ensures r.Ok? ==> 8 <= r.value.length <= |d|
  {
    var limit := if sizes.packed != 0 then sizes.packed else |d| - size;
    if limit > |d| - size then Err(Corrupt)
    else match Chunks(d[size..size + limit], false, out, cap)
      case Err(f) => Err(f)
      case Ok(c) => BlockTail(d, size, sizes, check, out, c)
  }

  /** What must hold once the chunks are read: the declared sizes, zero padding, the check over
      this block's output. */
  function BlockTail(d: seq<Byte>, size: nat, sizes: Sizes, check: nat, out: seq<Byte>, c: Chunked): (r: Result<Block>)
    requires 8 <= size && size + c.used <= |d| && out <= c.out
    ensures r.Ok? ==> 8 <= r.value.length <= |d|
  {
    var end := size + c.used;
    var q := end + Fill(end);
    if sizes.packed != 0 && c.used != sizes.packed then Err(Corrupt)
    else if sizes.plain != 0 && |c.out| - |out| != sizes.plain then Err(Corrupt)
    else if q > |d| || !AllZero(d[end..q]) || q + check > |d| then Err(Corrupt)
    else if CheckOf(check, c.out[|out|..]) != LeValue(d[q..q + check]) then Err(Corrupt)
    else Ok(Block(c.out, Record(end + check, |c.out| - |out|), q + check))
  }

  /** The output and records of all blocks, and what follows them. */
  datatype Blocks = Blocks(out: seq<Byte>, records: seq<Record>, rest: seq<Byte>)

  /** Blocks up to the index. */
  function ReadBlocks(d: seq<Byte>, check: nat, out: seq<Byte>, records: seq<Record>, cap: nat): (r: Result<Blocks>)
    ensures r.Ok? ==> r.value.rest != [] && r.value.rest[0] == 0
    decreases |d|
  {
    if d == [] then Err(Corrupt)
    else if d[0] == 0 then Ok(Blocks(out, records, d))
    else if |records| >= MAX_BLOCKS then Err(Unsupported)
    else match ReadBlock(d, check, out, cap)
      case Err(f) => Err(f)
      case Ok(b) => ReadBlocks(d[b.length..], check, b.out, records + [b.record], cap)
  }

  // ---- the index and the footer -----------------------------------------------------------------

  /** The index records must be those of the blocks; the place behind them. */
  function ReadRecords(d: seq<Byte>, p: nat, records: seq<Record>): Option<nat>
    decreases |records|
  {
    if records == [] then Some(p)
    else match VliAt(d, p)
      case None => None
      case Some(a) =>
        match VliAt(d, p + a.length)
        case None => None
        case Some(b) =>
          if Record(a.value, b.value) == records[0] then ReadRecords(d, p + a.length + b.length, records[1..]) else None
  }

  /** The index at the front of `d`, its indicator included; its size. */
  function ReadIndex(d: seq<Byte>, records: seq<Record>): (r: Option<nat>)
    ensures r.Some? ==> 4 <= r.value <= |d|
  {
    match VliAt(d, 1)
    case None => None
    case Some(n) =>
      if n.value != |records| then None
      else match ReadRecords(d, 1 + n.length, records)
        case None => None
        case Some(p) =>
          var q := p + Fill(p);
          if p > |d| || q + 4 > |d| || !AllZero(d[p..q]) || Crc32(d[..q], 0) != LeValue(d[q..q + 4]) then None
          else Some(q + 4)
  }

  function FooterMagic(): seq<Byte> {
    [0x59, 0x5A]
  }

  /** The twelve footer bytes; the size field is computed in 32 bits. */
  predicate FooterOk(f: seq<Byte>, index: nat, flags: seq<Byte>)
    requires |f| == 12
  {
    && Crc32(f[4..10], 0) == LeValue(f[..4])
    && (LeValue(f[4..8]) + 1) * 4 % 0x1_0000_0000 == index
    && f[8..10] == flags && f[10..12] == FooterMagic()
  }

  // ---- the stream -------------------------------------------------------------------------------

  function Magic(): seq<Byte> {
    [0xFD, 0x37, 0x7A, 0x58, 0x5A, 0x00]
  }

  /** Everything behind the stream header. */
  function ReadBody(d: seq<Byte>, flags: seq<Byte>, check: nat, cap: nat): Result<seq<Byte>> {
    match ReadBlocks(d, check, [], [], cap)
    case Err(f) => Err(f)
    case Ok(b) =>
      match ReadIndex(b.rest, b.records)
      case None => Err(Corrupt)
      case Some(index) => ReadEnd(b.rest[index..], flags, index, b.out)
  }

  function ReadEnd(d: seq<Byte>, flags: seq<Byte>, index: nat, out: seq<Byte>): Result<seq<Byte>> {
    if |d| < 12 || !FooterOk(d[..12], index, flags) then Err(Corrupt)
    else if (|d| - 12) % 4 != 0 || !AllZero(d[12..]) then Err(Corrupt)
    else Ok(out)
  }

  function Xz(data: seq<Byte>, cap: nat): Result<seq<Byte>> {
    if |data| < 24 || data[..6] != Magic() then Err(Invalid)
    else if Crc32(data[6..8], 0) != LeValue(data[8..12]) then Err(Corrupt)
    else if data[6] != 0 || data[7] / 16 != 0 || CheckSize(data[7] % 16).None? then Err(Unsupported)
    else ReadBody(data[12..], data[6..8], CheckSize(data[7] % 16).value, cap)
  }
}
