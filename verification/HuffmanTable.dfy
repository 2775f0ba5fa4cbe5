/** The decoder's Huffman table and its count-and-first-code walk. */
module HuffmanTables {
  import opened Options
  import opened Bits
  import opened BitReaders
  import opened CanonicalCode

  const MAX_SYMS := 288

  /** The symbol whose code starts `s`. */
  ghost function Lookup(ls: Lengths, s: BitString): (r: Option<nat>)
    ensures r.Some? ==> Match(ls, s, r.value)
    ensures r.None? ==> forall sym :: !Match(ls, s, sym)
  {
    if exists sym :: Match(ls, s, sym) then
      var sym :| Match(ls, s, sym);
      Some(sym)
    else None
  }

  lemma LookupIs(ls: Lengths, s: BitString, sym: nat)
    requires Kraft(ls) && Match(ls, s, sym)
    ensures Lookup(ls, s) == Some(sym)
  {
    MatchUnique(ls, s, Lookup(ls, s).value, sym);
  }

  class Huffman {
    const counts: array<nat>    // how many codes of each length
    const symbols: array<nat>   // symbols, sorted by (length, symbol)

    constructor ()
      ensures fresh(counts) && fresh(symbols) && Shaped()
    {
      counts := new nat[MAX_BITS + 1];
      symbols := new nat[MAX_SYMS];
    }

    ghost predicate Shaped() {
      counts.Length == MAX_BITS + 1 && symbols.Length == MAX_SYMS && counts != symbols
    }

    /** The arrays hold the canonical code of `ls`. */
    ghost predicate Represents(ls: Lengths)
      reads counts, symbols
    {
      && Shaped()
      && Kraft(ls)
      && (forall len :: 0 <= len <= MAX_BITS ==> counts[len] == Count(ls, len))
      && (forall sym: nat :: Coded(ls, sym) ==>
            Position(ls, sym) < MAX_SYMS && symbols[Position(ls, sym)] == sym)
    }

    method CountLengths(ls: Lengths)
      requires Shaped()
      modifies counts
      ensures forall len :: 0 <= len <= MAX_BITS ==> counts[len] == Count(ls, len)
    {
      for i := 0 to MAX_BITS + 1
        invariant forall len :: 0 <= len < i ==> counts[len] == 0
      {
        counts[i] := 0;
      }
      for i := 0 to |ls|
        invariant forall len :: 0 <= len <= MAX_BITS ==> counts[len] == CountBelow(ls, len, i)
      {
        counts[ls[i]] := counts[ls[i]] + 1;
      }
    }

    /** The running count of unassigned codes; negative when some length is
        over-subscribed. */
    method RemainingSpace(ls: Lengths) returns (left: int)
      requires Shaped()
      requires forall len :: 0 <= len <= MAX_BITS ==> counts[len] == Count(ls, len)
      ensures left < 0 <==> !Kraft(ls)
      ensures left >= 0 ==> left == Space(ls, MAX_BITS)
    {
      left := 1;
      for len := 1 to MAX_BITS + 1
        invariant left == Space(ls, len - 1)
        invariant forall k :: 0 <= k < len ==> Space(ls, k) >= 0
      {
        left := left * 2;
        left := left - counts[len];
        if left < 0 {
          assert Space(ls, len) < 0;
          return -1;
        }
      }
    }

    /** Counting sort of the coded symbols by code length. */
    method SortSymbols(ls: Lengths)
      requires Shaped() && |ls| <= MAX_SYMS
      requires forall len :: 0 <= len <= MAX_BITS ==> counts[len] == Count(ls, len)
      modifies symbols
      ensures forall sym: nat :: Coded(ls, sym) ==>
        Position(ls, sym) < MAX_SYMS && symbols[Position(ls, sym)] == sym
    {
      var offsets := Offsets(ls);
      for i := 0 to |ls|
        invariant forall k :: 1 <= k <= MAX_BITS ==> offsets[k] == Shorter(ls, k) + CountBelow(ls, k, i)
        invariant PlacedBelow(ls, i)
      {
        if ls[i] != 0 {
          PlaceSymbol(ls, i, offsets[ls[i]]);
          offsets[ls[i]] := offsets[ls[i]] + 1;
        }
      }
    }

    method Offsets(ls: Lengths) returns (offsets: array<nat>)
      requires Shaped()
      requires forall len :: 0 <= len <= MAX_BITS ==> counts[len] == Count(ls, len)
      ensures fresh(offsets) && offsets.Length == MAX_BITS + 2
      ensures forall k :: 1 <= k <= MAX_BITS ==> offsets[k] == Shorter(ls, k)
    {
      offsets := new nat[MAX_BITS + 2];
      offsets[1] := 0;
      for len := 1 to MAX_BITS + 1
        invariant forall k :: 1 <= k <= len ==> offsets[k] == Shorter(ls, k)
        invariant forall k :: 0 <= k <= MAX_BITS ==> counts[k] == Count(ls, k)
      {
        offsets[len + 1] := offsets[len] + counts[len];
      }
    }

    method PlaceSymbol(ls: Lengths, i: nat, offset: nat)
      requires Shaped() && |ls| <= MAX_SYMS && Coded(ls, i) && PlacedBelow(ls, i)
      requires offset == Position(ls, i)
      modifies symbols
      ensures PlacedBelow(ls, i + 1)
    {
      PositionBound(ls, i);
      PositionFree(ls, i);
      symbols[offset] := i;
    }

    ghost predicate PlacedBelow(ls: Lengths, n: nat)
      reads symbols
    {
      symbols.Length == MAX_SYMS &&
      forall sym: nat :: sym < n && Coded(ls, sym) ==>
        Position(ls, sym) < MAX_SYMS && symbols[Position(ls, sym)] == sym
    }

    /** Negative exactly on an over-subscribed list of lengths; otherwise the table
        represents the list. A positive result says the code is incomplete or empty. */
    method Build(ls: Lengths) returns (r: int)
      requires Shaped() && 0 < |ls| <= MAX_SYMS
      modifies counts, symbols
      ensures r < 0 <==> !Kraft(ls)
      ensures r >= 0 ==> Represents(ls)
      ensures r == 0 <==> Kraft(ls) && KraftSum(ls) == Pow2(MAX_BITS)
    {
      CountLengths(ls);
      SpaceIsKraftSum(ls);
      if counts[0] == |ls| {
        NoCodes(ls);
        return |ls|;
      }
      r := RemainingSpace(ls);
      if r < 0 {
        return;
      }
      SortSymbols(ls);
    }

    /** Decodes one symbol; -1 when the bits match no code or run out. */
    method Decode(br: BitReader, ghost ls: Lengths) returns (r: int)
      requires br.Valid() && Represents(ls)
      modifies br
      ensures br.Valid()
      ensures old(br.overrun) ==> r == -1 && br.overrun
      ensures r >= -1
      ensures r == -1 ==> old(br.overrun) || Lookup(ls, old(br.Rest())).None?
      ensures r >= 0 ==>
        && !br.overrun
        && Lookup(ls, old(br.Rest())) == Some(r)
        && br.Rest() == old(br.Rest())[ls[r]..]
    {
      hide BitReader.Valid, BitReader.Rest, CodeBits, Count, FirstCode, Shorter, Space, Kraft, Position, MsbValue, Lookup, Pow2, BitOr, BitOf;
      ghost var s := br.Rest();
      var code, first, index := 0, 0, 0;
      assert s[0..] == s;
      WalkBegins(ls, s);
      for len := 1 to MAX_BITS + 1
        invariant br.Valid() && br.overrun == old(br.overrun) && Represents(ls)
        invariant old(br.overrun) ==> len == 1
        invariant Walking(ls, s, len, code, first, index)
        invariant br.Rest() == s[len - 1..]
      {
        var bit := br.ReadBit();
        if br.overrun {
          if !old(br.overrun) {
            WalkEnds(ls, s, len, code, first, index);
          }
          return -1;
        }
        ghost var sym := WalkStep(ls, s, len, code, first, index);
        code := BitOr(code, bit);
        var count := counts[len];
        if code - first < count {
          assert symbols[Position(ls, sym)] == sym;
          return symbols[index + (code - first)];
        }
        index := index + count;
        first := 2 * (first + count);
        code := 2 * code;
        assert s[len - 1..][1..] == s[len..];
      }
      WalkEnds(ls, s, MAX_BITS + 1, code, first, index);
      return -1;
    }
  }

  /** The state of the walk before bit `len` is read: no shorter code matched, and the bits
      read so far, shifted, lie at or above the first code of `len` bits. */
  ghost predicate Walking(ls: Lengths, s: BitString, len: nat, code: int, first: int, index: int) {
    && 1 <= len <= MAX_BITS + 1 && len - 1 <= |s|
    && code == 2 * MsbValue(s[..len - 1])
    && first == FirstCode(ls, len)
    && index == Shorter(ls, len)
    && code >= first
    && forall sym: nat :: Coded(ls, sym) && ls[sym] < len ==> !Match(ls, s, sym)
  }

  lemma WalkBegins(ls: Lengths, s: BitString)
    ensures Walking(ls, s, 1, 0, 0, 0)
  {
    assert s[..0] == [];
  }

  /** Reading bit `len` either completes the code at rank `code - first` of its length or
      leaves the walk ready for the next bit. */
  lemma WalkStep(ls: Lengths, s: BitString, len: nat, code: nat, first: nat, index: nat) returns (sym: nat)
    requires Kraft(ls) && Walking(ls, s, len, code, first, index) && len <= |s| && len <= MAX_BITS
    ensures var c := BitOr(code, BitOf(s[len - 1])); var count := Count(ls, len);
      && c >= first
      && (c - first < count ==>
            && Coded(ls, sym) && ls[sym] == len && Position(ls, sym) == index + (c - first)
            && Lookup(ls, s) == Some(sym))
      && (c - first >= count ==> Walking(ls, s, len + 1, 2 * c, 2 * (first + count), index + count))
  {
    sym := 0;
    MsbValueExtend(s, len - 1);
    OrLowBit(MsbValue(s[..len - 1]), BitOf(s[len - 1]));
    var c := BitOr(code, BitOf(s[len - 1]));
    assert c == MsbValue(s[..len]);
    if c - first < Count(ls, len) {
      sym := SymbolWithRank(ls, len, c - first, |ls|);
      MatchIsValue(ls, s, sym);
      LookupIs(ls, s, sym);
    } else {
      NoMatchAbove(ls, s, len);
    }
  }

  /** With all bits or all lengths used up, no code matches. */
  lemma WalkEnds(ls: Lengths, s: BitString, len: nat, code: int, first: int, index: int)
    requires Walking(ls, s, len, code, first, index)
    requires len == |s| + 1 || len == MAX_BITS + 1
    ensures Lookup(ls, s).None?
  {
  }

  lemma PositionFree(ls: Lengths, i: nat)
    requires Coded(ls, i)
    ensures forall sym: nat :: sym < i && Coded(ls, sym) ==> Position(ls, sym) != Position(ls, i)
  {
    forall sym: nat | sym < i && Coded(ls, sym)
      ensures Position(ls, sym) != Position(ls, i)
    {
      PositionInjective(ls, sym, i);
    }
  }

  lemma OrLowBit(v: nat, bit: nat)
    requires bit <= 1
    ensures BitOr(2 * v, bit) == 2 * v + bit
  {
    BitOrDisjoint(bit, v, 1);
    BitOrCommutes(bit, Shl(v, 1));
  }

  lemma {:induction false} BitOrCommutes(a: nat, b: nat)
    ensures BitOr(a, b) == BitOr(b, a)
    decreases a + b
  {
    if a > 0 || b > 0 {
      BitOrCommutes(a / 2, b / 2);
    }
  }

  /** Bits past the last code of one length start no code of that length. */
  lemma NoMatchAbove(ls: Lengths, s: BitString, len: nat)
    requires Kraft(ls) && 1 <= len <= |s|
    requires MsbValue(s[..len]) >= FirstCode(ls, len) + Count(ls, len)
    ensures forall sym: nat :: Coded(ls, sym) && ls[sym] == len ==> !Match(ls, s, sym)
  {
    forall sym: nat | Coded(ls, sym) && ls[sym] == len
      ensures !Match(ls, s, sym)
    {
      CodeFits(ls, sym);
      MatchIsValue(ls, s, sym);
    }
  }

  lemma {:induction false} AllZeroCounts(ls: Lengths, n: nat)
    requires n <= |ls| && CountBelow(ls, 0, n) == n
    ensures forall i :: 0 <= i < n ==> ls[i] == 0
    ensures forall len: nat :: len > 0 ==> CountBelow(ls, len, n) == 0
  {
    if n > 0 {
      AllZeroCounts(ls, n - 1);
    }
  }

  lemma {:induction false} SpaceWithoutCodes(ls: Lengths, len: nat)
    requires forall k: nat :: k > 0 ==> Count(ls, k) == 0
    ensures Space(ls, len) == Pow2(len)
  {
    if len > 0 {
      SpaceWithoutCodes(ls, len - 1);
    }
  }

  /** A table in which every length is zero is within the code space and codes nothing. */
  lemma NoCodes(ls: Lengths)
    requires ls != [] && Count(ls, 0) == |ls|
    ensures Kraft(ls) && KraftSum(ls) == 0
    ensures forall sym: nat :: !Coded(ls, sym)
  {
    AllZeroCounts(ls, |ls|);
    forall len | 0 <= len <= MAX_BITS
      ensures Space(ls, len) >= 0
    {
      SpaceWithoutCodes(ls, len);
    }
    SpaceWithoutCodes(ls, MAX_BITS);
    SpaceIsKraftSum(ls);
  }
}
