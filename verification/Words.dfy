/** Little-endian words in byte strings. */
module Words {
  import opened Bits

  function LeBytes(v: nat, n: nat): (s: seq<Byte>)
    ensures |s| == n
    decreases n
  {
    if n == 0 then [] else [v % 256] + LeBytes(v / 256, n - 1)
  }

  function LeValue(s: seq<Byte>): (v: nat) {
    if s == [] then 0 else s[0] + 256 * LeValue(s[1..])
  }

  lemma Pow2Plus4(m: nat)
    ensures Pow2(m + 4) == 16 * Pow2(m)
  {
    assert Pow2(m + 4) == 2 * Pow2(m + 3) == 4 * Pow2(m + 2) == 8 * Pow2(m + 1);
  }

  lemma ByteWidth(n: nat)
    requires n > 0
    ensures Pow2(8 * n) == 256 * Pow2(8 * (n - 1))
  {
    var m := 8 * (n - 1);
    assert 8 * n == m + 8;
    Pow2Plus4(m);
    Pow2Plus4(m + 4);
    hide Pow2;
  }

  lemma {:induction false} LeValueOfBytes(v: nat, n: nat)
    requires v < Pow2(8 * n)
    ensures LeValue(LeBytes(v, n)) == v
    decreases n
  {
    if n > 0 {
      ByteWidth(n);
      LeValueOfBytes(v / 256, n - 1);
    }
  }

  lemma LowByte(b: Byte, v: nat)
    ensures (b + 256 * v) % 256 == b && (b + 256 * v) / 256 == v
  {
  }

  lemma {:induction false} LeBytesOfValue(s: seq<Byte>)
    ensures LeBytes(LeValue(s), |s|) == s && LeValue(s) < Pow2(8 * |s|)
  {
    if s != [] {
      var v := LeValue(s[1..]);
      ByteWidth(|s|);
      hide Pow2;
      LeBytesOfValue(s[1..]);
      LowByte(s[0], v);
      assert LeBytes(LeValue(s), |s|) == [s[0]] + LeBytes(v, |s| - 1);
    }
  }

  lemma {:induction false} LeValueSnoc(s: seq<Byte>, b: Byte)
    ensures LeValue(s + [b]) == LeValue(s) + Shl(b, 8 * |s|)
  {
    if s == [] {
      assert LeValue([b]) == b;
    } else {
      assert (s + [b])[1..] == s[1..] + [b];
      LeValueSnoc(s[1..], b);
      ShlByte(b, 8 * |s| - 8);
    }
  }

  lemma ShlByte(b: nat, n: nat)
    ensures Shl(b, n + 8) == 256 * Shl(b, n)
  {
    assert Shl(b, n + 4) == 2 * Shl(b, n + 3) == 4 * Shl(b, n + 2) == 8 * Shl(b, n + 1) == 16 * Shl(b, n);
    assert Shl(b, n + 8) == 2 * Shl(b, n + 7) == 4 * Shl(b, n + 6) == 8 * Shl(b, n + 5) == 16 * Shl(b, n + 4);
  }

  /** Bytes are or-ed in above the ones already read. */
  method ReadLe(data: seq<Byte>, at: nat, n: nat) returns (v: nat)
    requires at + n <= |data|
    ensures v == LeValue(data[at..at + n]) && v < Pow2(8 * n)
  {
    hide LeValue, BitOr, Shl;
    LeValueOfNothing();
    v := 0;
    ghost var s := data[at..at + n];
    for i := 0 to n
      invariant v == LeValue(s[..i]) && v < Pow2(8 * i)
    {
      assert s[..i + 1] == s[..i] + [s[i]];
      LeValueSnoc(s[..i], s[i]);
      BitOrDisjoint(v, data[at + i], 8 * i);
      LeBytesOfValue(s[..i + 1]);
      v := BitOr(v, Shl(data[at + i], 8 * i));
    }
    assert s[..n] == s;
  }

  lemma LeValueOfNothing()
    ensures LeValue([]) == 0
  {
  }

  function Zeros(n: nat): (s: seq<Byte>)
    ensures |s| == n && forall i :: 0 <= i < n ==> s[i] == 0
  {
    seq(n, i => 0)
  }

  /** `part` stands at `p`. */
  predicate At(h: seq<Byte>, p: nat, part: seq<Byte>) {
    p + |part| <= |h| && h[p..p + |part|] == part
  }
}
