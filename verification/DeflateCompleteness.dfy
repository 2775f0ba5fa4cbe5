/** Complete and incomplete codes: what completeness means for a decoder, and that blocks whose
    literal code is incomplete are accepted. */
module DeflateCompleteness {
  import opened Options
  import opened Bits
  import opened CanonicalCode
  import opened HuffmanTables
  import opened Lz77
  import opened DeflateFormat
  import opened DeflateDecoder
  import opened DeflateHeaders
  import opened DeflateTheorems
  import Inflater

  // ---- what completeness means --------------------------------------------------------------------

  /** Every bit string that is long enough starts with a code. */
  ghost predicate DecodesEverything(ls: Lengths) {
    forall s: BitString :: |s| == MAX_BITS ==> Lookup(ls, s).Some?
  }

  /** A code decodes every bit string exactly when its lengths use up the code space, which is
      when the build of its table answers 0. */
  lemma CompleteExactly(ls: Lengths)
    requires Kraft(ls)
    ensures DecodesEverything(ls) <==> KraftSum(ls) == Pow2(MAX_BITS)
  {
    SpaceIsKraftSum(ls);
    if KraftSum(ls) == Pow2(MAX_BITS) {
      forall s: BitString | |s| == MAX_BITS ensures Lookup(ls, s).Some? {
        SomeCodeStarts(ls, s);
      }
    } else {
      NoCodeStartsOnes(ls);
      assert |Ones(MAX_BITS)| == MAX_BITS;
    }
  }

  function Ones(n: nat): (s: BitString)
    ensures |s| == n && forall i :: 0 <= i < n ==> s[i]
  {
    seq(n, i => true)
  }

  lemma {:induction false} OnesValue(n: nat)
    ensures MsbValue(Ones(n)) == Pow2(n) - 1
  {
    if n > 0 {
      OnesValue(n - 1);
      assert Ones(n)[..n - 1] == Ones(n - 1);
    }
  }

  lemma {:induction false} SpaceWasPositive(ls: Lengths, m: nat, n: nat)
    requires m <= n && Space(ls, n) > 0
    ensures Space(ls, m) > 0
    decreases n
  {
    if m < n {
      SpaceWasPositive(ls, m, n - 1);
    }
  }

  /** With code space left over, no code is all ones. */
  lemma NoCodeStartsOnes(ls: Lengths)
    requires Kraft(ls) && Space(ls, MAX_BITS) > 0
    ensures Lookup(ls, Ones(MAX_BITS)).None?
  {
    var s := Ones(MAX_BITS);
    forall sym: nat ensures !CanonicalCode.Match(ls, s, sym) {
      if CanonicalCode.Match(ls, s, sym) {
        var len := ls[sym];
        MatchIsValue(ls, s, sym);
        assert s[..len] == Ones(len);
        OnesValue(len);
        SpaceWasPositive(ls, len, MAX_BITS);
        SpaceIdentity(ls, len);
        CodeFits(ls, sym);
      }
    }
  }

  /** With none left over, the walk along the lengths cannot run past the last one. */
  lemma SomeCodeStarts(ls: Lengths, s: BitString)
    requires Kraft(ls) && Space(ls, MAX_BITS) == 0 && |s| == MAX_BITS
    ensures Lookup(ls, s).Some?
  {
    assert s[..MAX_BITS] == s;
    MsbValueBound(s);
    SpaceIdentity(ls, MAX_BITS);
    if Lookup(ls, s).None? {
      StaysAbove(ls, s, MAX_BITS);
    }
  }

  lemma {:induction false} StaysAbove(ls: Lengths, s: BitString, len: nat)
    requires Kraft(ls) && 1 <= len <= |s| && forall sym: nat :: !CanonicalCode.Match(ls, s, sym)
    ensures MsbValue(s[..len]) >= FirstCode(ls, len) + Count(ls, len)
    decreases len
  {
    if len > 1 {
      StaysAbove(ls, s, len - 1);
      MsbValueExtend(s, len - 1);
    }
    var v := MsbValue(s[..len]);
    if v < FirstCode(ls, len) + Count(ls, len) {
      var sym := SymbolWithRank(ls, len, v - FirstCode(ls, len), |ls|);
      MatchIsValue(ls, s, sym);
    }
  }

  // ---- literal codes of dynamic blocks ---------------------------------------------------------------

  /** Among the headers that are accepted, those with a complete literal code are the ones whose
      literal lengths use up the code space; the others leave bit strings undecodable. */
  lemma AcceptedLiteralsAreCompleteExactly(s: BitString)
    requires DecodeHeader(s).Some?
    ensures var lit := DecodeHeader(s).value.lit;
      Kraft(lit) && (DecodesEverything(lit) <==> KraftSum(lit) == Pow2(MAX_BITS))
  {
    var h := HeaderSound(s);
    CompleteExactly(HeaderLiteral(h));
  }

  /** A header in which the end of the block is the only literal, with a code of eight bits:
      runs of 138 and 118 zeros, then that one length, and one distance code. */
  function LonelyHeader(): Header {
    Header(257, 1, [0, 0, 1, 0, 1], [LongZeros(127), LongZeros(107), One(8), One(8)])
  }

  /** It is valid, and its literal code is incomplete. */
  lemma LonelyIsValid()
    ensures ValidHeader(LonelyHeader())
    ensures HeaderLiteral(LonelyHeader()) == Fill(256, 0) + [8]
    ensures HeaderDistance(LonelyHeader()) == [8] && Coded(HeaderLiteral(LonelyHeader()), END_OF_BLOCK)
    ensures KraftSum(Fill(256, 0) + [8]) == Pow2(7) < Pow2(MAX_BITS)
  {
    LonelyOrder();
    LonelyLengths();
    LonelySums();
    var h := LonelyHeader();
    var all := Fill(256, 0) + [8] + [8];
    assert all[..257] == Fill(256, 0) + [8] && all[257..] == [8];
    hide Kraft, KraftSum, ClcLengths, ApplyOps, Pow2, Fill;
    assert h.hlit == 257 && h.hdist == 1 && |h.order| == 5;
    assert forall op :: op in h.ops ==> ValidOp(op) && (OpSymbol(op) == 18 || OpSymbol(op) == 8);
  }

  lemma LonelySums()
    ensures Kraft(Fill(256, 0) + [8]) && Kraft([8]) && KraftSum(Fill(256, 0) + [8]) == Pow2(7) < Pow2(MAX_BITS)
  {
    PowersUpTo13();
    assert Pow2(15) == 4 * Pow2(13);
    KraftSumOfZeros([], 256);
    assert [] + Fill(256, 0) == Fill(256, 0);
    KraftSumSnoc(Fill(256, 0), 8);
    KraftSumSnoc([], 8);
    assert [] + [8] == [8];
    KraftInequality(Fill(256, 0) + [8]);
    KraftInequality([8]);
  }

  lemma LonelyOrderIs()
    ensures ClcLengths(LonelyHeader().order) == Fill(8, 0) + [1] + Fill(9, 0) + [1]
  {
    hide ClcLengths, Fill;
    Inflater.ClcStep([], 0);
    Inflater.ClcStep([0], 0);
    Inflater.ClcStep([0, 0], 1);
    Inflater.ClcStep([0, 0, 1], 0);
    Inflater.ClcStep([0, 0, 1, 0], 1);
    assert [] + [0] == [0] && [0] + [0] == [0, 0] && [0, 0] + [1] == [0, 0, 1];
    assert [0, 0, 1] + [0] == [0, 0, 1, 0] && [0, 0, 1, 0] + [1] == [0, 0, 1, 0, 1];
    Inflater.DecodeNoOrder([]);
    LonelyPlaces(Fill(19, 0));
  }

  lemma LonelyPlaces(zeros: seq<nat>)
    requires zeros == Fill(19, 0)
    ensures zeros[16 := 0][17 := 0][18 := 1][0 := 0][8 := 1] == Fill(8, 0) + [1] + Fill(9, 0) + [1]
  {
  }

  lemma LonelyOrder()
    ensures var clc := ClcLengths(LonelyHeader().order); Kraft(clc) && Coded(clc, 18) && Coded(clc, 8)
  {
    var clc: Lengths := Fill(8, 0) + [1] + Fill(9, 0) + [1];
    LonelyOrderIs();
    hide ClcLengths;
    KraftSumOfZeros([], 8);
    assert [] + Fill(8, 0) == Fill(8, 0);
    KraftSumSnoc(Fill(8, 0), 1);
    KraftSumOfZeros(Fill(8, 0) + [1], 9);
    KraftSumSnoc(Fill(8, 0) + [1] + Fill(9, 0), 1);
    KraftInequality(clc);
  }

  lemma LonelyLengths()
    ensures ApplyOps(LonelyHeader().ops, []) == Some(Fill(256, 0) + [8] + [8])
  {
    var ops := LonelyHeader().ops;
    assert ops[1..] == [LongZeros(107), One(8), One(8)] && ops[1..][1..] == [One(8), One(8)];
    assert [One(8), One(8)][1..] == [One(8)] && [One(8)][1..] == [];
    assert [] + Fill(138, 0) == Fill(138, 0);
    assert Fill(138, 0) + Fill(118, 0) == Fill(256, 0);
  }

  lemma {:induction false} KraftSumOfZeros(ls: Lengths, n: nat)
    ensures KraftSum(ls + Fill(n, 0)) == KraftSum(ls)
  {
    if n == 0 {
      assert ls + Fill(0, 0) == ls;
    } else {
      var all := ls + Fill(n, 0);
      assert all[..|all| - 1] == ls + Fill(n - 1, 0);
      KraftSumOfZeros(ls, n - 1);
    }
  }

  lemma KraftSumSnoc(ls: Lengths, v: nat)
    requires 1 <= v <= MAX_BITS
    ensures KraftSum(ls + [v]) == KraftSum(ls) + Pow2(MAX_BITS - v)
  {
    var all: Lengths := ls + [v];
    assert all[..|all| - 1] == ls;
  }

  /** So such a header is accepted, whatever follows, and a whole stream made of one block with
      it is inflated, to nothing. */
  lemma IncompleteLiteralsAreAccepted(rest: BitString)
    ensures ValidHeader(LonelyHeader())
    ensures var r := DecodeHeader(EncodeHeader(LonelyHeader()) + rest);
      r.Some? && !DecodesEverything(r.value.lit)
  {
    LonelyIsValid();
    HeaderRoundTrip(LonelyHeader(), rest);
    hide *;
    CompleteExactly(HeaderLiteral(LonelyHeader()));
  }

  lemma IncompleteBlocksInflate(data: seq<Byte>, cap: nat)
    ensures var b := DynamicBlock(LonelyHeader(), []);
      ValidStream([b]) && (EncodeStream([b]) <= StreamBits(data) ==>
        Inflate(data, cap) == Ok(Inflated([], (|EncodeStream([b])| + 7) / 8)))
  {
    hide ValidBlock, EncodeStream, Inflate, StreamMeaning, Aligned, AllEncodable, ValidHeader, HeaderLiteral, LonelyHeader;
    LonelyIsValid();
    OneEmptyBlock(LonelyHeader());
    var b := DynamicBlock(LonelyHeader(), []);
    if EncodeStream([b]) <= StreamBits(data) {
      StreamRoundTrip([b], data, cap);
    }
  }

  lemma OneEmptyBlock(h: Header)
    requires ValidHeader(h) && Coded(HeaderLiteral(h), END_OF_BLOCK)
    ensures var b := DynamicBlock(h, []); ValidStream([b]) && StreamMeaning([b], []) == Some([])
  {
    var b := DynamicBlock(h, []);
    hide ValidHeader, HeaderLiteral, HeaderDistance, EncodeHeader, EncodeStream;
    assert ValidBlock(b);
    assert ValidBlocks([b]) && [b][1..] == [];
    assert BlockMeaning(b, []) == Some([]);
    assert StreamMeaning([b], []) == StreamMeaning([], []);
    assert Aligned([b], 0);
  }
}
