/** What several components share. */
module Options {
  datatype Option<+T> = None | Some(value: T)
}

module Sequences {

  predicate Distinct<T(==)>(s: seq<T>) {
    forall i, j :: 0 <= i < j < |s| ==> s[i] != s[j]
  }

  /** The sequence without the first `x`. */
  function Without<T(==)>(s: seq<T>, x: T): (r: seq<T>)
    ensures x !in s ==> r == s
    ensures |r| == if x in s then |s| - 1 else |s|
  {
    if s == [] then [] else if s[0] == x then s[1..] else [s[0]] + Without(s[1..], x)
  }

  lemma Associates<T>(a: seq<T>, b: seq<T>, c: seq<T>)
    ensures a + (b + c) == a + b + c
  {
  }
}

module Arithmetic {

  function Dec(n: nat): nat {
    if n > 0 then n - 1 else 0
  }

  lemma MulGrows(k: nat, n: nat)
    requires n >= 1
    ensures k * n >= k
  {
    assert k * n == k + k * (n - 1);
  }

  lemma DivUnique(x: nat, b: nat, q: nat, r: nat)
    requires b > 0 && x == b * q + r && r < b
    ensures x / b == q
  {
    var p, s := x / b, x % b;
    assert x == b * p + s;
    if p < q {
      assert b * (q - p) == b * q - b * p;
      MulGrows(b, q - p);
    } else if p > q {
      assert b * (p - q) == b * p - b * q;
      MulGrows(b, p - q);
    }
  }

  lemma DivStep(x: nat, b: nat)
    requires b > 0
    ensures (x + b) / b == x / b + 1
  {
    var q, r := x / b, x % b;
    assert x + b == b * (q + 1) + r;
    DivUnique(x + b, b, q + 1, r);
  }

  /** Wrapping an address at 64 bits wraps its page number at 52. */
  lemma PageOfWord(y: nat)
    ensures y % 0x1_0000_0000_0000_0000 / 4096 == y / 4096 % 0x10_0000_0000_0000
  {
    var q, n, r := y / 4096, 0x10_0000_0000_0000, y % 4096;
    var k, l := q / n, q % n;
    assert y == 4096 * q + r && q == n * k + l;
    assert y == 0x1_0000_0000_0000_0000 * k + (4096 * l + r);
    DivUnique(y, 0x1_0000_0000_0000_0000, k, 4096 * l + r);
    DivUnique(4096 * l + r, 4096, l, r);
  }

  lemma LowOfPage(q: nat)
    ensures q % 0x10_0000_0000_0000 % 0x1_0000_0000 == q % 0x1_0000_0000
  {
    var k, l := q / 0x10_0000_0000_0000, q % 0x10_0000_0000_0000;
    assert q == 0x10_0000_0000_0000 * k + l;
    assert q == 0x1_0000_0000 * (0x10_0000 * k + l / 0x1_0000_0000) + l % 0x1_0000_0000;
    DivUnique(q, 0x1_0000_0000, 0x10_0000 * k + l / 0x1_0000_0000, l % 0x1_0000_0000);
  }

  lemma DivMonotone(a: nat, b: nat, k: nat)
    requires k > 0 && a <= b
    ensures a / k <= b / k
  {
    var p, q := a / k, b / k;
    assert a == k * p + a % k && b == k * q + b % k;
    if p > q {
      assert k * (p - q) == k * p - k * q;
      MulGrows(k, p - q);
    }
  }
}
