/** The DEFLATE stream as a grammar (section 3.2.3 of RFC 1951): what a stream of blocks
    means and every way it may be written down. This is the reference encoder; it shares
    nothing with the decoder but the code-length and base tables. */
module DeflateFormat {
  import opened Options
  import opened Bits
  import opened CanonicalCode
  import opened HuffmanTables
  import opened Lz77

  const END_OF_BLOCK := 256
  const MAX_NONFINAL_BLOCKS: nat := 0x10_0000

  // ---- compressed data ------------------------------------------------------------------

  /** Both of a token's symbols have codes in the block's tables. */
  ghost predicate Encodable(t: Token, lit: Lengths, dist: Lengths) {
    && ValidToken(t)
    && match t
       case Literal(b) => Coded(lit, b)
       case Match(lc, _, dc, _) => Coded(lit, 257 + lc) && Coded(dist, dc)
  }

  ghost function EncodeToken(t: Token, lit: Lengths, dist: Lengths): BitString
    requires Encodable(t, lit, dist)
  {
    match t
    case Literal(b) => CodeBits(lit, b)
    case Match(lc, le, dc, de) =>
      CodeBits(lit, 257 + lc) + LsbBits(le, LenExtra(lc)) + CodeBits(dist, dc) + LsbBits(de, DistExtra(dc))
  }

  ghost predicate AllEncodable(ts: seq<Token>, lit: Lengths, dist: Lengths) {
    && Coded(lit, END_OF_BLOCK)
    && forall t :: t in ts ==> Encodable(t, lit, dist)
  }

  ghost function EncodeTokens(ts: seq<Token>, lit: Lengths, dist: Lengths): BitString
    requires AllEncodable(ts, lit, dist)
  {
    if ts == [] then CodeBits(lit, END_OF_BLOCK)
    else EncodeToken(ts[0], lit, dist) + EncodeTokens(ts[1..], lit, dist)
  }

  // ---- the fixed tables -------------------------------------------------------------------

  function Fill(n: nat, v: nat): (s: seq<nat>)
    ensures |s| == n
    ensures forall i :: 0 <= i < n ==> s[i] == v
  {
    seq(n, i => v)
  }

  function FixedLiteral(): Lengths {
    Fill(144, 8) + Fill(112, 9) + Fill(24, 7) + Fill(8, 8)
  }

  function FixedDistance(): Lengths {
    Fill(30, 5)
  }

  // ---- dynamic tables -----------------------------------------------------------------------

  const CLC_ORDER: seq<nat> := [16, 17, 18, 0, 8, 7, 9, 6, 10, 5, 11, 4, 12, 3, 13, 2, 14, 1, 15]

  /** One symbol of the code-length alphabet with its extra bits: a length, a repeat of the
      previous length, a short run of zeros, a long run of zeros. */
  datatype LengthOp =
    | One(length: nat)
    | Repeat(extra: nat)
    | Zeros(extra: nat)
    | LongZeros(extra: nat)

  predicate ValidOp(op: LengthOp) {
    match op
    case One(n) => n < 16
    case Repeat(x) => x < 4
    case Zeros(x) => x < 8
    case LongZeros(x) => x < 128
  }

  function OpSymbol(op: LengthOp): nat {
    match op
    case One(n) => n
    case Repeat(_) => 16
    case Zeros(_) => 17
    case LongZeros(_) => 18
  }

  function OpExtraBits(op: LengthOp): BitString {
    match op
    case One(_) => []
    case Repeat(x) => LsbBits(x, 2)
    case Zeros(x) => LsbBits(x, 3)
    case LongZeros(x) => LsbBits(x, 7)
  }

  /** The lengths after one more operation; nothing when there is no length to repeat. */
  function ApplyOp(op: LengthOp, acc: Lengths): (r: Option<Lengths>)
    requires ValidOp(op)
    ensures r.Some? ==> |acc| < |r.value| && acc <= r.value
  {
    match op
    case One(n) => Some(acc + [n])
    case Repeat(x) => if acc == [] then None else Some(acc + Fill(3 + x, acc[|acc| - 1]))
    case Zeros(x) => Some(acc + Fill(3 + x, 0))
    case LongZeros(x) => Some(acc + Fill(11 + x, 0))
  }

  function ApplyOps(ops: seq<LengthOp>, acc: Lengths): (r: Option<Lengths>)
    requires forall op :: op in ops ==> ValidOp(op)
    decreases |ops|
  {
    if ops == [] then Some(acc)
    else match ApplyOp(ops[0], acc)
      case None => None
      case Some(next) => ApplyOps(ops[1..], next)
  }

  ghost function EncodeOps(ops: seq<LengthOp>, clc: Lengths): BitString
    requires forall op :: op in ops ==> Coded(clc, OpSymbol(op))
  {
    if ops == [] then []
    else CodeBits(clc, OpSymbol(ops[0])) + OpExtraBits(ops[0]) + EncodeOps(ops[1..], clc)
  }

  /** `order` holds the transmitted code-length code lengths, in the scrambled order. */
  datatype Header = Header(hlit: nat, hdist: nat, order: seq<nat>, ops: seq<LengthOp>)

  /** The code-length code: transmitted lengths put in symbol order, the rest zero. */
  function ClcLengths(order: seq<nat>): (ls: Lengths)
    requires |order| <= 19 && forall i :: 0 <= i < |order| ==> order[i] < 8
    ensures |ls| == 19
  {
    if order == [] then Fill(19, 0)
    else ClcLengths(order[..|order| - 1])[CLC_ORDER[|order| - 1] := order[|order| - 1]]
  }

  ghost predicate ValidHeader(h: Header) {
    && 257 <= h.hlit <= 286 && 1 <= h.hdist <= 30
    && 4 <= |h.order| <= 19 && (forall i :: 0 <= i < |h.order| ==> h.order[i] < 8)
    && Kraft(ClcLengths(h.order))
    && (forall op :: op in h.ops ==> ValidOp(op) && Coded(ClcLengths(h.order), OpSymbol(op)))
    && ApplyOps(h.ops, []).Some?
    && |ApplyOps(h.ops, []).value| == h.hlit + h.hdist
    && Kraft(HeaderLiteral(h)) && Kraft(HeaderDistance(h))
  }

  ghost function HeaderLiteral(h: Header): Lengths
    requires forall op :: op in h.ops ==> ValidOp(op)
    requires ApplyOps(h.ops, []).Some? && |ApplyOps(h.ops, []).value| == h.hlit + h.hdist
  {
    ApplyOps(h.ops, []).value[..h.hlit]
  }

  ghost function HeaderDistance(h: Header): Lengths
    requires forall op :: op in h.ops ==> ValidOp(op)
    requires ApplyOps(h.ops, []).Some? && |ApplyOps(h.ops, []).value| == h.hlit + h.hdist
  {
    ApplyOps(h.ops, []).value[h.hlit..]
  }

  function EncodeOrder(order: seq<nat>): (s: BitString)
    ensures |s| == 3 * |order|
  {
    if order == [] then [] else LsbBits(order[0], 3) + EncodeOrder(order[1..])
  }

  ghost function EncodeHeader(h: Header): BitString
    requires ValidHeader(h)
  {
    LsbBits(h.hlit - 257, 5) + LsbBits(h.hdist - 1, 5) + LsbBits(|h.order| - 4, 4) +
    EncodeOrder(h.order) + EncodeOps(h.ops, ClcLengths(h.order))
  }

  // ---- blocks --------------------------------------------------------------------------------

  /** `pad` is whatever fills the byte a stored block's header ends in. */
  datatype Block =
    | StoredBlock(pad: BitString, bytes: seq<Byte>)
    | FixedBlock(tokens: seq<Token>)
    | DynamicBlock(header: Header, tokens: seq<Token>)

  ghost predicate ValidBlock(b: Block) {
    match b
    case StoredBlock(pad, bytes) => |pad| < 8 && |bytes| < 0x1_0000
    case FixedBlock(ts) => AllEncodable(ts, FixedLiteral(), FixedDistance())
    case DynamicBlock(h, ts) => ValidHeader(h) && AllEncodable(ts, HeaderLiteral(h), HeaderDistance(h))
  }

  function Le16(v: nat): (s: seq<Byte>)
    requires v < 0x1_0000
    ensures |s| == 2
  {
    [v % 256, v / 256]
  }

  function StoredBytes(bytes: seq<Byte>): seq<Byte>
    requires |bytes| < 0x1_0000
  {
    Le16(|bytes|) + Le16(0xFFFF - |bytes|) + bytes
  }

  ghost function BlockBody(b: Block): BitString
    requires ValidBlock(b)
  {
    match b
    case StoredBlock(pad, bytes) => pad + StreamBits(StoredBytes(bytes))
    case FixedBlock(ts) => EncodeTokens(ts, FixedLiteral(), FixedDistance())
    case DynamicBlock(h, ts) => EncodeHeader(h) + EncodeTokens(ts, HeaderLiteral(h), HeaderDistance(h))
  }

  function BlockType(b: Block): nat {
    match b
    case StoredBlock(_, _) => 0
    case FixedBlock(_) => 1
    case DynamicBlock(_, _) => 2
  }

  ghost function EncodeBlock(b: Block, final: bool): BitString
    requires ValidBlock(b)
  {
    [final] + LsbBits(BlockType(b), 2) + BlockBody(b)
  }

  /** What a block adds to the output; back-references may reach into earlier blocks. */
  ghost function BlockMeaning(b: Block, out: seq<Byte>): Option<seq<Byte>>
    requires ValidBlock(b)
  {
    match b
    case StoredBlock(_, bytes) => Some(out + bytes)
    case FixedBlock(ts) => Expand(ts, out)
    case DynamicBlock(_, ts) => Expand(ts, out)
  }

  ghost predicate ValidBlocks(bs: seq<Block>) {
    forall b :: b in bs ==> ValidBlock(b)
  }

  /** All blocks in order, the last one marked final. */
  ghost function EncodeStream(bs: seq<Block>): (s: BitString)
    requires ValidBlocks(bs)
    decreases |bs|
  {
    if bs == [] then [] else EncodeBlock(bs[0], |bs| == 1) + EncodeStream(bs[1..])
  }

  ghost function StreamMeaning(bs: seq<Block>, out: seq<Byte>): Option<seq<Byte>>
    requires ValidBlocks(bs)
    decreases |bs|
  {
    if bs == [] then Some(out)
    else match BlockMeaning(bs[0], out)
      case None => None
      case Some(next) => StreamMeaning(bs[1..], next)
  }

  /** The padding of every stored block ends at a byte boundary when the stream starts at
      bit position `at`. */
  ghost predicate Aligned(bs: seq<Block>, at: nat)
    requires ValidBlocks(bs)
    decreases |bs|
  {
    bs != [] ==>
      && (bs[0].StoredBlock? ==> (at + 3 + |bs[0].pad|) % 8 == 0)
      && Aligned(bs[1..], at + |EncodeBlock(bs[0], |bs| == 1)|)
  }

  /** A complete stream: valid blocks laid out from a byte boundary, within the number of
      blocks the decoder is prepared to follow. */
  ghost predicate ValidStream(bs: seq<Block>) {
    && bs != [] && ValidBlocks(bs) && Aligned(bs, 0)
    && |bs| - 1 <= MAX_NONFINAL_BLOCKS
  }
}
