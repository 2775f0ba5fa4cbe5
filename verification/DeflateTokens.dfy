/** The decoder inverts the encoder on compressed data and on dynamic tables, and accepts
    nothing else. */
module DeflateTokens {
  import opened Options
  import opened Bits
  import opened CanonicalCode
  import opened HuffmanTables
  import opened Lz77
  import opened DeflateFormat
  import opened DeflateDecoder

  /** A symbol's code followed by anything decodes to the symbol and leaves the rest. */
  lemma SymbolRoundTrip(ls: Lengths, sym: nat, rest: BitString)
    requires Kraft(ls) && Coded(ls, sym)
    ensures Lookup(ls, CodeBits(ls, sym) + rest) == Some(sym)
    ensures (CodeBits(ls, sym) + rest)[ls[sym]..] == rest
  {
    assert CodeBits(ls, sym) <= CodeBits(ls, sym) + rest;
    LookupIs(ls, CodeBits(ls, sym) + rest, sym);
  }

  lemma SymbolSplit(ls: Lengths, s: BitString)
    ensures var r := Lookup(ls, s); r.Some? ==> s == CodeBits(ls, r.value) + s[ls[r.value]..]
  {
  }

  lemma ValueRoundTrip(v: nat, n: nat, rest: BitString)
    requires v < Pow2(n)
    ensures LsbValue((LsbBits(v, n) + rest)[..n]) == v
    ensures (LsbBits(v, n) + rest)[n..] == rest
  {
    LsbValueOfBits(v, n);
    assert (LsbBits(v, n) + rest)[..n] == LsbBits(v, n);
  }

  lemma ValueSplit(s: BitString, n: nat)
    requires n <= |s|
    ensures s == LsbBits(LsbValue(s[..n]), n) + s[n..]
    ensures LsbValue(s[..n]) < Pow2(n)
  {
    LsbBitsOfValue(s[..n]);
    LsbValueBound(s[..n]);
  }

  // ---- back-references ------------------------------------------------------------------

  /** What follows the length code of a back-reference. */
  ghost function MatchTail(t: Token, dist: Lengths): BitString
    requires t.Match? && ValidToken(t) && Coded(dist, t.distCode)
  {
    LsbBits(t.lengthExtra, LenExtra(t.lengthCode)) + CodeBits(dist, t.distCode)
    + LsbBits(t.distExtra, DistExtra(t.distCode))
  }

  lemma MatchRoundTrip(t: Token, dist: Lengths, rest: BitString)
    requires t.Match? && ValidToken(t) && Kraft(dist) && Coded(dist, t.distCode)
    ensures DecodeMatch(MatchTail(t, dist) + rest, dist, t.lengthCode) == Some((t, rest))
  {
    var le, de := LenExtra(t.lengthCode), DistExtra(t.distCode);
    var tail2 := LsbBits(t.distExtra, de) + rest;
    var tail1 := CodeBits(dist, t.distCode) + tail2;
    assert MatchTail(t, dist) + rest == LsbBits(t.lengthExtra, le) + tail1;
    ValueRoundTrip(t.lengthExtra, le, tail1);
    SymbolRoundTrip(dist, t.distCode, tail2);
    ValueRoundTrip(t.distExtra, de, rest);
  }

  lemma MatchSplit(s: BitString, dist: Lengths, lc: nat)
    requires lc < LEN_CODES
    ensures var r := DecodeMatch(s, dist, lc); r.Some? ==>
      var (t, rest) := r.value;
      t.lengthCode == lc && Coded(dist, t.distCode) && s == MatchTail(t, dist) + rest
  {
    hide CodeBits, LenBase, LenExtra, DistBase, DistExtra, LsbBits, LsbValue, Lookup, Pow2;
    var r := DecodeMatch(s, dist, lc);
    if r.Some? {
      var (t, rest) := r.value;
      var le := LenExtra(lc);
      var s1 := s[le..];
      var s2 := s1[dist[t.distCode]..];
      ValueSplit(s, le);
      SymbolSplit(dist, s1);
      ValueSplit(s2, DistExtra(t.distCode));
      assert s == LsbBits(t.lengthExtra, le) + (CodeBits(dist, t.distCode)
                  + (LsbBits(t.distExtra, DistExtra(t.distCode)) + rest));
    }
  }

  // ---- compressed data ------------------------------------------------------------------

  lemma Associate<T>(a: seq<T>, b: seq<T>, c: seq<T>)
    ensures (a + b) + c == a + (b + c)
  {
  }

  lemma TailEncodable(ts: seq<Token>, lit: Lengths, dist: Lengths)
    requires AllEncodable(ts, lit, dist) && ts != []
    ensures Encodable(ts[0], lit, dist) && AllEncodable(ts[1..], lit, dist)
    ensures EncodeTokens(ts, lit, dist) == EncodeToken(ts[0], lit, dist) + EncodeTokens(ts[1..], lit, dist)
  {
    assert ts[0] in ts;
  }

  lemma ConsEncodable(t: Token, ts: seq<Token>, lit: Lengths, dist: Lengths)
    requires Encodable(t, lit, dist) && AllEncodable(ts, lit, dist)
    ensures AllEncodable([t] + ts, lit, dist)
    ensures EncodeTokens([t] + ts, lit, dist) == EncodeToken(t, lit, dist) + EncodeTokens(ts, lit, dist)
  {
    assert ([t] + ts)[1..] == ts;
  }

  lemma DecodeLiteral(s: BitString, lit: Lengths, dist: Lengths, out: seq<Byte>, cap: nat)
    requires Lookup(lit, s).Some? && Lookup(lit, s).value < 256
    ensures var b := Lookup(lit, s).value;
      DecodeTokens(s, lit, dist, out, cap) ==
      if |out| >= cap then Err(TooMany) else DecodeTokens(s[lit[b]..], lit, dist, out + [b], cap)
  {
  }

  lemma DecodeReference(s: BitString, lit: Lengths, dist: Lengths, out: seq<Byte>, cap: nat)
    requires Lookup(lit, s).Some? && END_OF_BLOCK < Lookup(lit, s).value <= 285
    ensures var sym := Lookup(lit, s).value; var m := DecodeMatch(s[lit[sym]..], dist, sym - 257);
      DecodeTokens(s, lit, dist, out, cap) ==
      if m.None? then Err(Corrupt)
      else
        var (t, s2) := m.value;
        if MatchDistance(t) > |out| || |out| + MatchLength(t) > cap then Err(TooMany)
        else DecodeTokens(s2, lit, dist, CopyBack(out, MatchDistance(t), MatchLength(t)), cap)
  {
  }

  /** The answer the grammar asks for. */
  ghost function Expected(r: Option<seq<Byte>>, cap: nat, rest: BitString): Result<Decoded> {
    if r.Some? && |r.value| <= cap then Ok(Decoded(r.value, rest)) else Err(TooMany)
  }

  /** Encoded tokens decode to their expansion when it exists and fits, and are refused as
      too long otherwise. */
  lemma {:induction false} TokensRoundTrip(ts: seq<Token>, lit: Lengths, dist: Lengths, out: seq<Byte>, cap: nat,
                                           rest: BitString)
    requires Kraft(lit) && Kraft(dist) && AllEncodable(ts, lit, dist) && |out| <= cap
    ensures DecodeTokens(EncodeTokens(ts, lit, dist) + rest, lit, dist, out, cap)
         == Expected(Expand(ts, out), cap, rest)
    decreases |ts|
  {
    if ts == [] {
      SymbolRoundTrip(lit, END_OF_BLOCK, rest);
    } else {
      hide *;
      TailEncodable(ts, lit, dist);
      var s2 := EncodeTokens(ts[1..], lit, dist) + rest;
      Associate(EncodeToken(ts[0], lit, dist), EncodeTokens(ts[1..], lit, dist), rest);
      if ts[0].Literal? {
        LiteralRoundTrip(ts, lit, dist, out, cap, s2, rest);
      } else {
        ReferenceRoundTrip(ts, lit, dist, out, cap, s2, rest);
      }
    }
  }

  lemma LiteralRoundTrip(ts: seq<Token>, lit: Lengths, dist: Lengths, out: seq<Byte>, cap: nat,
                         s2: BitString, rest: BitString)
    requires Kraft(lit) && Kraft(dist) && AllEncodable(ts, lit, dist) && |out| <= cap
    requires ts != [] && ts[0].Literal? && AllEncodable(ts[1..], lit, dist) && s2 == EncodeTokens(ts[1..], lit, dist) + rest
    ensures DecodeTokens(EncodeToken(ts[0], lit, dist) + s2, lit, dist, out, cap)
         == Expected(Expand(ts, out), cap, rest)
    decreases |ts|, 0
  {
    hide CodeBits, DecodeTokens, EncodeTokens, Lookup;
    assert ts[0] in ts;
    var b := ts[0].b;
    var s := CodeBits(lit, b) + s2;
    SymbolRoundTrip(lit, b, s2);
    DecodeLiteral(s, lit, dist, out, cap);
    if |out| < cap {
      TokensRoundTrip(ts[1..], lit, dist, out + [b], cap, rest);
    } else {
      ExpandGrows(ts, out);
    }
  }

  lemma ReferenceRoundTrip(ts: seq<Token>, lit: Lengths, dist: Lengths, out: seq<Byte>, cap: nat,
                           s2: BitString, rest: BitString)
    requires Kraft(lit) && Kraft(dist) && AllEncodable(ts, lit, dist) && |out| <= cap
    requires ts != [] && ts[0].Match? && AllEncodable(ts[1..], lit, dist) && s2 == EncodeTokens(ts[1..], lit, dist) + rest
    ensures DecodeTokens(EncodeToken(ts[0], lit, dist) + s2, lit, dist, out, cap)
         == Expected(Expand(ts, out), cap, rest)
    decreases |ts|, 0
  {
    hide DecodeMatch, CodeBits, Lookup, DecodeTokens, EncodeTokens, LenBase, LenExtra, DistBase, DistExtra;
    var t := ts[0];
    assert t in ts;
    var sym := 257 + t.lengthCode;
    var s1 := MatchTail(t, dist) + s2;
    var s := CodeBits(lit, sym) + s1;
    EncodeReference(t, lit, dist);
    Associate(CodeBits(lit, sym), MatchTail(t, dist), s2);
    SymbolRoundTrip(lit, sym, s1);
    MatchRoundTrip(t, dist, s2);
    TokenRanges(t);
    DecodeReference(s, lit, dist, out, cap);
    var d, n := MatchDistance(t), MatchLength(t);
    if d <= |out| {
      if |out| + n <= cap {
        TokensRoundTrip(ts[1..], lit, dist, CopyBack(out, d, n), cap, rest);
      } else {
        ExpandGrows(ts, out);
      }
    }
  }

  /** The first token already adds its bytes. */
  lemma ExpandGrows(ts: seq<Token>, out: seq<Byte>)
    requires ts != [] && forall t :: t in ts ==> ValidToken(t)
    ensures var r := Expand(ts, out); r.Some? ==>
      |r.value| >= |out| + if ts[0].Literal? then 1 else MatchLength(ts[0])
  {
    match ts[0]
    case Literal(b) => ExpandKeepsPrefix(ts[1..], out + [b]);
    case Match(_, _, _, _) =>
      var d := MatchDistance(ts[0]);
      if 1 <= d <= |out| {
        ExpandKeepsPrefix(ts[1..], CopyBack(out, d, MatchLength(ts[0])));
      }
  }

  /** The decoder's answer is explained by `ts`. */
  ghost predicate Explains(ts: seq<Token>, s: BitString, lit: Lengths, dist: Lengths, out: seq<Byte>, cap: nat,
                           d: Decoded) {
    && AllEncodable(ts, lit, dist)
    && s == EncodeTokens(ts, lit, dist) + d.rest
    && Expand(ts, out) == Some(d.out) && |d.out| <= cap
  }

  /** Whatever is accepted is the encoding of some tokens with exactly that expansion. */
  lemma {:induction false} TokensSound(s: BitString, lit: Lengths, dist: Lengths, out: seq<Byte>, cap: nat)
    returns (ts: seq<Token>)
    requires |out| <= cap
    ensures var r := DecodeTokens(s, lit, dist, out, cap); r.Ok? ==> Explains(ts, s, lit, dist, out, cap, r.value)
    decreases |s|
  {
    hide CodeBits, MatchTail, MatchLength, MatchDistance, EncodeToken, DecodeMatch, CopyBack;
    ts := [];
    var r := DecodeTokens(s, lit, dist, out, cap);
    if r.Ok? {
      var sym := Lookup(lit, s).value;
      SymbolSplit(lit, s);
      var s1 := s[lit[sym]..];
      if sym < 256 {
        DecodeLiteral(s, lit, dist, out, cap);
        var more := TokensSound(s1, lit, dist, out + [sym], cap);
        ts := ExplainLiteral(sym, more, s, lit, dist, out, cap, r.value);
      } else if sym != END_OF_BLOCK {
        DecodeReference(s, lit, dist, out, cap);
        MatchSplit(s1, dist, sym - 257);
        var (t, s2) := DecodeMatch(s1, dist, sym - 257).value;
        var more := TokensSound(s2, lit, dist, CopyBack(out, MatchDistance(t), MatchLength(t)), cap);
        ts := ExplainReference(t, more, s, s2, lit, dist, out, cap, r.value);
      }
    }
  }

  lemma ExplainLiteral(b: Byte, more: seq<Token>, s: BitString, lit: Lengths, dist: Lengths, out: seq<Byte>, cap: nat,
                       d: Decoded) returns (ts: seq<Token>)
    requires Coded(lit, b) && CodeBits(lit, b) <= s
    requires Explains(more, s[lit[b]..], lit, dist, out + [b], cap, d)
    ensures Explains(ts, s, lit, dist, out, cap, d)
  {
    hide CodeBits, EncodeTokens;
    ts := [Literal(b)] + more;
    assert ts[1..] == more;
    ConsEncodable(Literal(b), more, lit, dist);
    Associate(CodeBits(lit, b), EncodeTokens(more, lit, dist), d.rest);
    assert s == CodeBits(lit, b) + s[lit[b]..];
  }

  lemma ExplainReference(t: Token, more: seq<Token>, s: BitString, s2: BitString, lit: Lengths, dist: Lengths,
                         out: seq<Byte>, cap: nat, d: Decoded) returns (ts: seq<Token>)
    requires t.Match? && Encodable(t, lit, dist) && 1 <= MatchDistance(t) <= |out|
    requires s == CodeBits(lit, 257 + t.lengthCode) + (MatchTail(t, dist) + s2)
    requires Explains(more, s2, lit, dist, CopyBack(out, MatchDistance(t), MatchLength(t)), cap, d)
    ensures Explains(ts, s, lit, dist, out, cap, d)
  {
    ts := [t] + more;
    EncodeReference(t, lit, dist);
    hide CodeBits, MatchTail, MatchLength, MatchDistance, EncodeTokens, EncodeToken, Encodable, Expand, CopyBack;
    ConsEncodable(t, more, lit, dist);
    ExpandReference(t, more, out);
    Associate(CodeBits(lit, 257 + t.lengthCode), MatchTail(t, dist), s2);
    Associate(EncodeToken(t, lit, dist), EncodeTokens(more, lit, dist), d.rest);
  }

  lemma EncodeReference(t: Token, lit: Lengths, dist: Lengths)
    requires t.Match? && Encodable(t, lit, dist)
    ensures EncodeToken(t, lit, dist) == CodeBits(lit, 257 + t.lengthCode) + MatchTail(t, dist)
  {
    hide CodeBits, LenExtra, DistExtra, LsbBits;
    assert EncodeToken(t, lit, dist) == CodeBits(lit, 257 + t.lengthCode) + MatchTail(t, dist);
  }

  lemma ExpandReference(t: Token, more: seq<Token>, out: seq<Byte>)
    requires t.Match? && ValidToken(t) && 1 <= MatchDistance(t) <= |out|
    requires forall u :: u in more ==> ValidToken(u)
    ensures Expand([t] + more, out) == Expand(more, CopyBack(out, MatchDistance(t), MatchLength(t)))
  {
    assert ([t] + more)[1..] == more;
  }
}
