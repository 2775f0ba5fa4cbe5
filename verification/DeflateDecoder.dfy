/** What the decoder answers, as functions of the bits still to be read. The code itself is
    in Inflate; that it agrees with the grammar is in DeflateTheorems. */
module DeflateDecoder {
  import opened Options
  import opened Bits
  import opened CanonicalCode
  import opened HuffmanTables
  import opened Lz77
  import opened DeflateFormat

  /** Why a stream was refused: AF_ERR_FS_CORRUPT or AF_ERR_TOOMANY. */
  datatype Status = Corrupt | TooMany

  datatype Result<+T> = Ok(value: T) | Err(status: Status)

  datatype Decoded = Decoded(out: seq<Byte>, rest: BitString)

  /** Literal/length and distance symbols up to the end-of-block symbol. */
  ghost function DecodeTokens(s: BitString, lit: Lengths, dist: Lengths, out: seq<Byte>, cap: nat): (r: Result<Decoded>)
    ensures r.Ok? ==> |r.value.rest| <= |s|
    decreases |s|
  {
    match Lookup(lit, s)
    case None => Err(Corrupt)
    case Some(sym) =>
      var s1 := s[lit[sym]..];
      if sym < 256 then
        if |out| >= cap then Err(TooMany) else DecodeTokens(s1, lit, dist, out + [sym], cap)
      else if sym == END_OF_BLOCK then Ok(Decoded(out, s1))
      else if sym > 285 then Err(Corrupt)
      else match DecodeMatch(s1, dist, sym - 257)
        case None => Err(Corrupt)
        case Some((t, s2)) =>
          if MatchDistance(t) > |out| || |out| + MatchLength(t) > cap then Err(TooMany)
          else DecodeTokens(s2, lit, dist, CopyBack(out, MatchDistance(t), MatchLength(t)), cap)
  }

  /** The rest of a back-reference after its length code. */
  ghost function DecodeMatch(s: BitString, dist: Lengths, lc: nat): (r: Option<(Token, BitString)>)
    requires lc < LEN_CODES
    ensures r.Some? ==>
      && r.value.0.Match? && ValidToken(r.value.0) && MatchDistance(r.value.0) >= 1
      && |r.value.1| <= |s|
  {
    var le := LenExtra(lc);
    if |s| < le then None
    else match Lookup(dist, s[le..])
      case None => None
      case Some(dc) =>
        var s1 := s[le..][dist[dc]..];
        if dc > 29 || |s1| < DistExtra(dc) then None
        else
          LsbValueBound(s[..le]);
          LsbValueBound(s1[..DistExtra(dc)]);
          Some((Match(lc, LsbValue(s[..le]), dc, LsbValue(s1[..DistExtra(dc)])), s1[DistExtra(dc)..]))
  }

  /** One symbol of the code-length alphabet. */
  ghost function DecodeOp(s: BitString, clc: Lengths): (r: Option<(LengthOp, BitString)>)
    requires |clc| == 19
    ensures r.Some? ==> ValidOp(r.value.0) && |r.value.1| < |s|
  {
    match Lookup(clc, s)
    case None => None
    case Some(sym) =>
      var s1 := s[clc[sym]..];
      if sym < 16 then Some((One(sym), s1))
      else
        var n := if sym == 16 then 2 else if sym == 17 then 3 else 7;
        if |s1| < n then None
        else
          LsbValueBound(s1[..n]);
          PowersUpTo13();
          var x := LsbValue(s1[..n]);
          Some((if sym == 16 then Repeat(x) else if sym == 17 then Zeros(x) else LongZeros(x), s1[n..]))
  }

  /** Code lengths up to `total` of them. */
  ghost function DecodeLengths(s: BitString, clc: Lengths, total: nat, acc: Lengths): Option<(Lengths, BitString)>
    requires |clc| == 19
    decreases |s|
  {
    if |acc| >= total then Some((acc, s))
    else match DecodeOp(s, clc)
      case None => None
      case Some((op, s1)) =>
        match ApplyOp(op, acc)
        case None => None
        case Some(next) => if |next| > total then None else DecodeLengths(s1, clc, total, next)
  }

  ghost function DecodeOrder(s: BitString, n: nat): (order: seq<nat>)
    requires 3 * n <= |s|
    ensures |order| == n && forall i :: 0 <= i < n ==> order[i] < 8
  {
    if n == 0 then []
    else
      LsbValueBound(s[..3]);
      PowersUpTo13();
      [LsbValue(s[..3])] + DecodeOrder(s[3..], n - 1)
  }

  datatype Tables = Tables(lit: Lengths, dist: Lengths, rest: BitString)

  ghost function DecodeHeader(s: BitString): (r: Option<Tables>)
    ensures r.Some? ==> |r.value.rest| <= |s| && |r.value.lit| <= MAX_SYMS && |r.value.dist| <= 30
    ensures r.Some? ==> Kraft(r.value.lit) && Kraft(r.value.dist)
  {
    if |s| < 14 then None
    else
      LsbValueBound(s[10..14]);
      PowersUpTo13();
      DecodeCodes(s[14..], LsbValue(s[..5]) + 257, LsbValue(s[5..10]) + 1, LsbValue(s[10..14]) + 4)
  }

  /** The code-length code and the tables coded with it. */
  ghost function DecodeCodes(s: BitString, hlit: nat, hdist: nat, hclen: nat): (r: Option<Tables>)
    requires hclen <= 19
    ensures r.Some? ==> |r.value.rest| <= |s| && |r.value.lit| <= MAX_SYMS && |r.value.dist| <= 30
    ensures r.Some? ==> Kraft(r.value.lit) && Kraft(r.value.dist)
  {
    if hlit > 286 || hdist > 30 || |s| < 3 * hclen then None
    else
      var clc := ClcLengths(DecodeOrder(s, hclen));
      if Kraft(clc) then DecodeTables(s[3 * hclen..], clc, hlit, hdist) else None
  }

  ghost function DecodeTables(s: BitString, clc: Lengths, hlit: nat, hdist: nat): (r: Option<Tables>)
    requires |clc| == 19 && hlit <= 286 && hdist <= 30
    ensures r.Some? ==> |r.value.rest| <= |s| && |r.value.lit| <= MAX_SYMS && |r.value.dist| <= 30
    ensures r.Some? ==> Kraft(r.value.lit) && Kraft(r.value.dist)
  {
    match DecodeLengths(s, clc, hlit + hdist, [])
    case None => None
    case Some((all, rest)) =>
      DecodeLengthsBound(s, clc, hlit + hdist, []);
      if Kraft(all[..hlit]) && Kraft(all[hlit..]) then Some(Tables(all[..hlit], all[hlit..], rest)) else None
  }

  lemma {:induction false} DecodeLengthsBound(s: BitString, clc: Lengths, total: nat, acc: Lengths)
    requires |clc| == 19 && |acc| <= total
    ensures var r := DecodeLengths(s, clc, total, acc);
      r.Some? ==> |r.value.0| == total && |r.value.1| <= |s|
    decreases |s|
  {
    if |acc| < total && DecodeOp(s, clc).Some? {
      var (op, s1) := DecodeOp(s, clc).value;
      if ApplyOp(op, acc).Some? && |ApplyOp(op, acc).value| <= total {
        DecodeLengthsBound(s1, clc, total, ApplyOp(op, acc).value);
      }
    }
  }

  /** The whole bytes of a bit string that starts at a byte boundary. */
  function WholeBytes(s: BitString): (data: seq<Byte>)
    ensures |data| == |s| / 8
    decreases |s|
  {
    if |s| < 8 then []
    else
      LsbValueBound(s[..8]);
      PowersUpTo13();
      [LsbValue(s[..8])] + WholeBytes(s[8..])
  }

  function Le16Value(lo: nat, hi: nat): nat {
    lo + 256 * hi
  }

  ghost function DecodeStored(s: BitString, out: seq<Byte>, cap: nat): (r: Result<Decoded>)
    ensures r.Ok? ==> |r.value.rest| <= |s|
  {
    var aligned := s[|s| % 8..];
    var data := WholeBytes(aligned);
    if |data| < 4 then Err(Corrupt)
    else
      var blen := Le16Value(data[0], data[1]);
      var nlen := Le16Value(data[2], data[3]);
      if blen + nlen != 0xFFFF || |data| - 4 < blen then Err(Corrupt)
      else if |out| + blen > cap then Err(TooMany)
      else Ok(Decoded(out + data[4..4 + blen], aligned[8 * (4 + blen)..]))
  }

  /** The body of a block of type `kind`. */
  ghost function DecodeBody(s: BitString, kind: nat, out: seq<Byte>, cap: nat): (r: Result<Decoded>)
    ensures r.Ok? ==> |r.value.rest| <= |s|
  {
    if kind == 0 then DecodeStored(s, out, cap)
    else if kind == 1 then DecodeTokens(s, FixedLiteral(), FixedDistance(), out, cap)
    else if kind == 2 then
      match DecodeHeader(s)
      case None => Err(Corrupt)
      case Some(t) => DecodeTokens(t.rest, t.lit, t.dist, out, cap)
    else Err(Corrupt)
  }

  /** Blocks up to the final one; at most `left` of them may be non-final. */
  ghost function DecodeBlocks(s: BitString, out: seq<Byte>, cap: nat, left: nat): (r: Result<Decoded>)
    ensures r.Ok? ==> |r.value.rest| <= |s|
    decreases left
  {
    if |s| < 3 then Err(Corrupt)
    else match DecodeBody(s[3..], LsbValue(s[1..3]), out, cap)
      case Err(status) => Err(status)
      case Ok(d) =>
        if s[0] then Ok(d)
        else if left == 0 then Err(Corrupt)
        else DecodeBlocks(d.rest, d.out, cap, left - 1)
  }

  datatype Inflated = Inflated(out: seq<Byte>, consumed: nat)

  /** The output and the number of input bytes used, the last one rounded up. */
  ghost function Inflate(data: seq<Byte>, cap: nat): Result<Inflated> {
    match DecodeBlocks(StreamBits(data), [], cap, MAX_NONFINAL_BLOCKS)
    case Err(status) => Err(status)
    case Ok(d) => Ok(Inflated(d.out, |data| - |d.rest| / 8))
  }
}
