/** Bit strings and the two bit orders DEFLATE mixes in one stream, together with the
    machine operations (`|`, `&`, `^`) on non-negative integers that the decoder uses. */
module Bits {
  import opened Sequences

  type Byte = b: int | 0 <= b < 256

  type BitString = seq<bool>

  function Pow2(n: nat): (p: nat)
    ensures p >= 1
  {
    if n == 0 then 1 else 2 * Pow2(n - 1)
  }

  /** `v << n` */
  function Shl(v: nat, n: nat): (r: nat) {
    if n == 0 then v else 2 * Shl(v, n - 1)
  }

  /** `v >> n` */
  function Shr(v: nat, n: nat): (r: nat) {
    if n == 0 then v else Shr(v / 2, n - 1)
  }

  /** The number formed by the `n` low bits of `v`. */
  function Low(v: nat, n: nat): (r: nat)
    ensures r < Pow2(n)
  {
    if n == 0 then 0 else v % 2 + 2 * Low(v / 2, n - 1)
  }

  function BitOf(b: bool): nat {
    if b then 1 else 0
  }

  /** The `n` low bits of `v`, least significant bit first. */
  function LsbBits(v: nat, n: nat): (s: BitString)
    ensures |s| == n
  {
    if n == 0 then [] else [v % 2 == 1] + LsbBits(v / 2, n - 1)
  }

  /** The number a bit string denotes when its first bit is the least significant one. */
  function LsbValue(s: BitString): (v: nat) {
    if s == [] then 0 else BitOf(s[0]) + 2 * LsbValue(s[1..])
  }

  /** The `n` low bits of `v`, most significant bit first. */
  function MsbBits(v: nat, n: nat): (s: BitString)
    ensures |s| == n
  {
    if n == 0 then [] else MsbBits(v / 2, n - 1) + [v % 2 == 1]
  }

  /** The number a bit string denotes when its first bit is the most significant one. */
  function MsbValue(s: BitString): (v: nat) {
    if s == [] then 0 else 2 * MsbValue(s[..|s| - 1]) + BitOf(s[|s| - 1])
  }

  /** A byte string as the bit string DEFLATE reads: bytes in order, each least
      significant bit first. */
  function StreamBits(data: seq<Byte>): (s: BitString)
    ensures |s| == 8 * |data|
  {
    if data == [] then [] else LsbBits(data[0], 8) + StreamBits(data[1..])
  }

  // ---- shifts -----------------------------------------------------------------

  lemma {:induction false} ShlHalf(v: nat, n: nat)
    requires n > 0
    ensures Shl(v, n) == Shl(2 * v, n - 1)
  {
    if n > 1 {
      ShlHalf(v, n - 1);
    }
  }

  lemma {:induction false} Pow2Monotone(m: nat, n: nat)
    requires m <= n
    ensures Pow2(m) <= Pow2(n)
  {
    if m < n {
      Pow2Monotone(m, n - 1);
    }
  }

  // ---- least significant bit first ------------------------------------------

  lemma {:induction false} LsbValueBound(s: BitString)
    ensures LsbValue(s) < Pow2(|s|)
  {
    if s != [] {
      LsbValueBound(s[1..]);
    }
  }

  lemma {:induction false} LsbValueOfBits(v: nat, n: nat)
    requires v < Pow2(n)
    ensures LsbValue(LsbBits(v, n)) == v
  {
    if n > 0 {
      assert LsbBits(v, n)[1..] == LsbBits(v / 2, n - 1);
      LsbValueOfBits(v / 2, n - 1);
    }
  }

  lemma {:induction false} LsbBitsOfValue(s: BitString)
    ensures LsbBits(LsbValue(s), |s|) == s
  {
    if s != [] {
      LsbBitsOfValue(s[1..]);
      assert s == [s[0]] + s[1..];
    }
  }

  /** Placing `b` above the `m` bits of `a` is concatenation of bit strings. */
  lemma {:induction false} LsbBitsJoin(a: nat, m: nat, b: nat, n: nat)
    requires a < Pow2(m)
    ensures LsbBits(a + Shl(b, m), m + n) == LsbBits(a, m) + LsbBits(b, n)
  {
    if m > 0 {
      LsbBitsJoin(a / 2, m - 1, b, n);
      assert LsbBits(a, m) + LsbBits(b, n) == [a % 2 == 1] + (LsbBits(a / 2, m - 1) + LsbBits(b, n));
    } else {
      assert LsbBits(a, 0) + LsbBits(b, n) == LsbBits(b, n);
    }
  }

  lemma {:induction false} JoinBound(a: nat, m: nat, b: nat, n: nat)
    requires a < Pow2(m) && b < Pow2(n)
    ensures a + Shl(b, m) < Pow2(m + n)
  {
    if m > 0 {
      JoinBound(a / 2, m - 1, b, n);
    }
  }

  /** Masking the low `n` bits and shifting them out splits the bit string at `n`. */
  lemma {:induction false} LsbBitsSplit(v: nat, n: nat, m: nat)
    ensures LsbBits(v, n + m) == LsbBits(Low(v, n), n) + LsbBits(Shr(v, n), m)
  {
    if n > 0 {
      LsbBitsSplit(v / 2, n - 1, m);
      assert LsbBits(Low(v, n), n) + LsbBits(Shr(v, n), m)
          == [v % 2 == 1] + (LsbBits(Low(v / 2, n - 1), n - 1) + LsbBits(Shr(v / 2, n - 1), m));
    } else {
      assert LsbBits(0, 0) + LsbBits(v, m) == LsbBits(v, m);
    }
  }

  lemma {:induction false} ShrBound(v: nat, n: nat, m: nat)
    requires v < Pow2(n + m)
    ensures Shr(v, n) < Pow2(m)
  {
    if n > 0 {
      ShrBound(v / 2, n - 1, m);
    }
  }

  // ---- most significant bit first -------------------------------------------

  lemma {:induction false} MsbValueBound(s: BitString)
    ensures MsbValue(s) < Pow2(|s|)
  {
    if s != [] {
      MsbValueBound(s[..|s| - 1]);
    }
  }

  lemma {:induction false} MsbValueOfBits(v: nat, n: nat)
    requires v < Pow2(n)
    ensures MsbValue(MsbBits(v, n)) == v
  {
    if n > 0 {
      assert MsbBits(v, n)[..n - 1] == MsbBits(v / 2, n - 1);
      MsbValueOfBits(v / 2, n - 1);
    }
  }

  lemma {:induction false} MsbBitsOfValue(s: BitString)
    ensures MsbBits(MsbValue(s), |s|) == s
  {
    if s != [] {
      var t := s[..|s| - 1];
      MsbBitsOfValue(t);
      var v := MsbValue(s);
      assert v / 2 == MsbValue(t) && (v % 2 == 1 <==> s[|s| - 1]);
      assert s == t + [s[|s| - 1]];
    }
  }

  // ---- byte streams -----------------------------------------------------------

  lemma {:induction false} StreamBitsConcat(a: seq<Byte>, b: seq<Byte>)
    ensures StreamBits(a + b) == StreamBits(a) + StreamBits(b)
  {
    hide LsbBits;
    if a == [] {
      assert a + b == b;
    } else {
      assert (a + b)[1..] == a[1..] + b && (a + b)[0] == a[0];
      StreamBitsConcat(a[1..], b);
      Associates(LsbBits(a[0], 8), StreamBits(a[1..]), StreamBits(b));
    }
  }

  lemma StreamBitsSuffix(data: seq<Byte>, k: nat)
    requires k <= |data|
    ensures StreamBits(data)[8 * k..] == StreamBits(data[k..])
  {
    StreamBitsConcat(data[..k], data[k..]);
    assert data[..k] + data[k..] == data;
  }

  // ---- machine operations on non-negative integers ----------------------------

  function BitOr(a: nat, b: nat): (r: nat)
    decreases a + b
  {
    if a == 0 && b == 0 then 0
    else (if a % 2 == 1 || b % 2 == 1 then 1 else 0) + 2 * BitOr(a / 2, b / 2)
  }

  function BitAnd(a: nat, b: nat): (r: nat)
    decreases a + b
  {
    if a == 0 && b == 0 then 0
    else (if a % 2 == 1 && b % 2 == 1 then 1 else 0) + 2 * BitAnd(a / 2, b / 2)
  }

  function BitXor(a: nat, b: nat): (r: nat)
    decreases a + b
  {
    if a == 0 && b == 0 then 0
    else (if a % 2 != b % 2 then 1 else 0) + 2 * BitXor(a / 2, b / 2)
  }

  lemma {:induction false} BitOrZero(a: nat)
    ensures BitOr(0, a) == a
  {
    if a > 0 {
      BitOrZero(a / 2);
    }
  }

  /** Or-ing in a value shifted above the occupied bits is addition. */
  lemma {:induction false} BitOrDisjoint(a: nat, b: nat, n: nat)
    requires a < Pow2(n)
    ensures BitOr(a, Shl(b, n)) == a + Shl(b, n)
  {
    if n == 0 {
      BitOrZero(b);
    } else {
      BitOrDisjoint(a / 2, b, n - 1);
    }
  }

  /** And-ing with `2^n - 1` keeps the `n` low bits. */
  lemma {:induction false} BitAndMask(a: nat, n: nat)
    ensures BitAnd(a, Pow2(n) - 1) == Low(a, n)
  {
    if n == 0 {
      BitAndZero(a);
    } else {
      BitAndMask(a / 2, n - 1);
    }
  }

  lemma {:induction false} BitAndZero(a: nat)
    ensures BitAnd(a, 0) == 0
  {
    if a > 0 {
      BitAndZero(a / 2);
    }
  }

  /** Two `n`-bit numbers are ones-complements of each other exactly when they sum to
      `2^n - 1`. */
  lemma {:induction false} XorIsComplement(a: nat, b: nat, n: nat)
    requires a < Pow2(n) && b < Pow2(n)
    ensures BitXor(a, b) == Pow2(n) - 1 <==> a + b == Pow2(n) - 1
  {
    if n > 0 {
      XorIsComplement(a / 2, b / 2, n - 1);
    }
  }

  lemma {:induction false} LowKeeps(v: nat, n: nat)
    requires v < Pow2(n)
    ensures Low(v, n) == v
  {
    if n > 0 {
      LowKeeps(v / 2, n - 1);
    }
  }

  lemma {:induction false} LowDrops(v: nat, n: nat)
    ensures Low(v + Pow2(n), n) == Low(v, n)
  {
    if n > 0 {
      assert (v + Pow2(n)) / 2 == v / 2 + Pow2(n - 1);
      LowDrops(v / 2, n - 1);
    }
  }

  lemma PowersOfTwo()
    ensures Pow2(8) == 0x100 && Pow2(16) == 0x1_0000 && Pow2(32) == 0x1_0000_0000
  {
    assert Pow2(4) == 16;
    assert Pow2(8) == 0x100;
    assert Pow2(12) == 0x1000;
    assert Pow2(16) == 0x1_0000;
    assert Pow2(20) == 0x10_0000;
    assert Pow2(24) == 0x100_0000;
    assert Pow2(28) == 0x1000_0000;
  }
}
