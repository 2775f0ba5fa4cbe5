/** Cyclic redundancy checks over the bits of a message, for any register width and any
    polynomial whose constant term is set. Registers are bit strings, least significant bit
    first; `poly` is the reflected polynomial. */
module Crc {
  import opened Bits

  function Xor(a: BitString, b: BitString): (r: BitString)
    requires |a| == |b|
    ensures |r| == |a|
    ensures forall i :: 0 <= i < |a| ==> r[i] == (a[i] != b[i])
  {
    if a == [] then [] else [a[0] != b[0]] + Xor(a[1..], b[1..])
  }

  function Same(n: nat, bit: bool): (r: BitString)
    ensures |r| == n && forall i :: 0 <= i < n ==> r[i] == bit
  {
    seq(n, i => bit)
  }

  function Not(a: BitString): (r: BitString)
    ensures |r| == |a| && forall i :: 0 <= i < |a| ==> r[i] == !a[i]
  {
    Xor(a, Same(|a|, true))
  }

  /** A reflected polynomial: its last bit is the constant term, which is one. */
  predicate Polynomial(poly: BitString) {
    poly != [] && poly[|poly| - 1]
  }

  /** One bit leaves the register; when it was set, the polynomial is folded back in. */
  function Step(c: BitString, poly: BitString): (r: BitString)
    requires |c| == |poly| > 0
    ensures |r| == |c|
  {
    var shifted := c[1..] + [false];
    if c[0] then Xor(shifted, poly) else shifted
  }

  function Steps(c: BitString, poly: BitString, n: nat): (r: BitString)
    requires |c| == |poly| > 0
    ensures |r| == |c|
    decreases n
  {
    if n == 0 then c else Steps(Step(c, poly), poly, n - 1)
  }

  function Pad(bits: BitString, width: nat): (r: BitString)
    requires |bits| <= width
    ensures |r| == width && bits <= r
  {
    bits + Same(width - |bits|, false)
  }

  /** The register after a message, taken one bit at a time. */
  function Feed(bits: BitString, c: BitString, poly: BitString): (r: BitString)
    requires |c| == |poly| > 0
    ensures |r| == |c|
    decreases |bits|
  {
    if bits == [] then c
    else Feed(bits[1..], Step(Xor(c, Pad(bits[..1], |c|)), poly), poly)
  }

  /** The check of `data`, continuing from the check `seed` of what came before; zeros to
      start with. */
  function Check(data: seq<Byte>, seed: BitString, poly: BitString): (r: BitString)
    requires |seed| == |poly| > 0
    ensures |r| == |seed|
  {
    Not(Feed(StreamBits(data), Not(seed), poly))
  }

  // ---- a step is linear and loses nothing ---------------------------------------------------

  lemma NotNot(a: BitString)
    ensures Not(Not(a)) == a
  {
  }

  lemma XorAssociates(a: BitString, b: BitString, c: BitString)
    requires |a| == |b| == |c|
    ensures Xor(Xor(a, b), c) == Xor(a, Xor(b, c))
  {
  }

  lemma StepLinear(a: BitString, b: BitString, poly: BitString)
    requires |a| == |b| == |poly| > 0
    ensures Step(Xor(a, b), poly) == Xor(Step(a, poly), Step(b, poly))
  {
    var l, r := Step(Xor(a, b), poly), Xor(Step(a, poly), Step(b, poly));
    forall i | 0 <= i < |l| ensures l[i] == r[i] {
    }
  }

  /** The last bit of the result tells which bit left. */
  lemma StepInjective(a: BitString, b: BitString, poly: BitString)
    requires |a| == |b| == |poly| && Polynomial(poly)
    requires Step(a, poly) == Step(b, poly)
    ensures a == b
  {
    var n := |a|;
    var r := Step(a, poly);
    assert r[n - 1] == a[0] && Step(b, poly)[n - 1] == b[0];
    forall i | 1 <= i < n ensures a[i] == b[i] {
      assert r[i - 1] == (a[i] != (a[0] && poly[i - 1]));
      assert Step(b, poly)[i - 1] == (b[i] != (b[0] && poly[i - 1]));
    }
  }

  lemma {:induction false} StepsInjective(a: BitString, b: BitString, poly: BitString, n: nat)
    requires |a| == |b| == |poly| && Polynomial(poly)
    requires Steps(a, poly, n) == Steps(b, poly, n)
    ensures a == b
    decreases n
  {
    if n > 0 {
      StepsInjective(Step(a, poly), Step(b, poly), poly, n - 1);
      StepInjective(a, b, poly);
    }
  }

  // ---- chaining -------------------------------------------------------------------------------

  lemma {:induction false} FeedConcat(a: BitString, b: BitString, c: BitString, poly: BitString)
    requires |c| == |poly| > 0
    ensures Feed(a + b, c, poly) == Feed(b, Feed(a, c, poly), poly)
    decreases |a|
  {
    if a == [] {
      assert a + b == b;
    } else {
      assert (a + b)[1..] == a[1..] + b && (a + b)[..1] == a[..1];
      hide Step, Xor, Pad;
      FeedConcat(a[1..], b, Step(Xor(c, Pad(a[..1], |c|)), poly), poly);
    }
  }

  /** The check of a whole is the check of its second part seeded with that of the first. */
  lemma CheckChains(a: seq<Byte>, b: seq<Byte>, seed: BitString, poly: BitString)
    requires |seed| == |poly| > 0
    ensures Check(a + b, seed, poly) == Check(b, Check(a, seed, poly), poly)
  {
    hide Not, Feed;
    StreamBitsConcat(a, b);
    FeedConcat(StreamBits(a), StreamBits(b), Not(seed), poly);
    NotNot(Feed(StreamBits(a), Not(seed), poly));
  }

  lemma {:induction false} FeedInjective(bits: BitString, c: BitString, d: BitString, poly: BitString)
    requires |c| == |d| == |poly| && Polynomial(poly)
    requires Feed(bits, c, poly) == Feed(bits, d, poly)
    ensures c == d
    decreases |bits|
  {
    if bits != [] {
      var w := Pad(bits[..1], |c|);
      FeedInjective(bits[1..], Step(Xor(c, w), poly), Step(Xor(d, w), poly), poly);
      StepInjective(Xor(c, w), Xor(d, w), poly);
      XorCancels(c, d, w);
    }
  }

  lemma XorCancels(a: BitString, b: BitString, w: BitString)
    requires |a| == |b| == |w| && Xor(a, w) == Xor(b, w)
    ensures a == b
  {
    forall i | 0 <= i < |a| ensures a[i] == b[i] {
      assert Xor(a, w)[i] == (a[i] != w[i]) && Xor(b, w)[i] == (b[i] != w[i]);
    }
  }

  // ---- many bits at once ----------------------------------------------------------------------

  lemma PadStep(bits: BitString, poly: BitString)
    requires 1 <= |bits| <= |poly|
    ensures Pad(bits, |poly|) == Xor(Pad(bits[..1], |poly|), Pad([false] + bits[1..], |poly|))
    ensures Step(Pad([false] + bits[1..], |poly|), poly) == Pad(bits[1..], |poly|)
  {
  }

  /** Up to a register's width of message bits may be folded in first and stepped over
      afterwards: this is what the byte-wise loop does. */
  lemma {:induction false} Absorb(bits: BitString, c: BitString, poly: BitString)
    requires |c| == |poly| > 0 && |bits| <= |poly|
    ensures Feed(bits, c, poly) == Steps(Xor(c, Pad(bits, |c|)), poly, |bits|)
    decreases |bits|
  {
    var n := |poly|;
    if bits == [] {
      assert Xor(c, Pad(bits, n)) == c;
    } else {
      var one, more := Pad(bits[..1], n), Pad([false] + bits[1..], n);
      PadStep(bits, poly);
      XorAssociates(c, one, more);
      StepLinear(Xor(c, one), more, poly);
      Absorb(bits[1..], Step(Xor(c, one), poly), poly);
    }
  }

  /** Two messages of the same length that differ only within one register's width of
      consecutive bits have different checks. */
  lemma BurstsAreCaught(p: BitString, x: BitString, y: BitString, s: BitString, c: BitString, poly: BitString)
    requires |c| == |poly| && Polynomial(poly) && |x| == |y| <= |poly|
    requires Feed(p + x + s, c, poly) == Feed(p + y + s, c, poly)
    ensures x == y
  {
    hide Feed, Steps, Xor;
    var n := |poly|;
    var d := Feed(p, c, poly);
    FeedConcat(p + x, s, c, poly);
    FeedConcat(p + y, s, c, poly);
    FeedInjective(s, Feed(p + x, c, poly), Feed(p + y, c, poly), poly);
    FeedConcat(p, x, c, poly);
    FeedConcat(p, y, c, poly);
    Absorb(x, d, poly);
    Absorb(y, d, poly);
    StepsInjective(Xor(d, Pad(x, n)), Xor(d, Pad(y, n)), poly, |x|);
    XorCommutes(d, Pad(x, n));
    XorCommutes(d, Pad(y, n));
    XorCancels(Pad(x, n), Pad(y, n), d);
    assert Pad(x, n)[..|x|] == x && Pad(y, n)[..|y|] == y;
  }

  lemma XorCommutes(a: BitString, b: BitString)
    requires |a| == |b|
    ensures Xor(a, b) == Xor(b, a)
  {
  }

  /** The same for bytes: no change confined to as many consecutive bytes as the check is
      long goes unnoticed, whatever surrounds them. */
  lemma ByteBurstsAreCaught(p: seq<Byte>, x: seq<Byte>, y: seq<Byte>, s: seq<Byte>, seed: BitString, poly: BitString)
    requires |seed| == |poly| && Polynomial(poly) && |x| == |y| && 8 * |x| <= |poly| && x != y
    ensures Check(p + x + s, seed, poly) != Check(p + y + s, seed, poly)
  {
    hide Feed, Not;
    if Check(p + x + s, seed, poly) == Check(p + y + s, seed, poly) {
      NotNot(Feed(StreamBits(p + x + s), Not(seed), poly));
      NotNot(Feed(StreamBits(p + y + s), Not(seed), poly));
      StreamBitsConcat(p + x, s);
      StreamBitsConcat(p, x);
      StreamBitsConcat(p + y, s);
      StreamBitsConcat(p, y);
      BurstsAreCaught(StreamBits(p), StreamBits(x), StreamBits(y), StreamBits(s), Not(seed), poly);
      StreamBitsInjective(x, y);
    }
  }

  lemma {:induction false} StreamBitsInjective(x: seq<Byte>, y: seq<Byte>)
    requires StreamBits(x) == StreamBits(y)
    ensures x == y
  {
    if x != [] {
      var a, b := StreamBits(x), StreamBits(y);
      assert |x| == |y|;
      assert a[..8] == LsbBits(x[0], 8) && b[..8] == LsbBits(y[0], 8);
      assert a[8..] == StreamBits(x[1..]) && b[8..] == StreamBits(y[1..]);
      PowersOfTwo();
      LsbValueOfBits(x[0], 8);
      LsbValueOfBits(y[0], 8);
      StreamBitsInjective(x[1..], y[1..]);
    }
  }

  /** A message followed by its own check leaves the same register whatever the message: the
      check is a remainder. */
  lemma ResidueIsConstant(data: seq<Byte>, check: seq<Byte>, seed: BitString, poly: BitString)
    requires |seed| == |poly| > 0 && StreamBits(check) == Check(data, seed, poly)
    ensures Check(data + check, seed, poly) == Not(Steps(Same(|poly|, true), poly, |poly|))
  {
    hide Feed, Steps;
    var c := Feed(StreamBits(data), Not(seed), poly);
    StreamBitsConcat(data, check);
    FeedConcat(StreamBits(data), StreamBits(check), Not(seed), poly);
    Absorb(StreamBits(check), c, poly);
    assert Pad(StreamBits(check), |poly|) == Not(c);
    assert Xor(c, Not(c)) == Same(|poly|, true);
  }
}
