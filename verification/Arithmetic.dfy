/** Multiplication and division facts, one at a time. */
module Arithmetic {

  lemma MulAtLeast(d: int, k: int)
    requires d > 0 && k >= 1
    ensures d * k >= d
  {
    assert d * k == d * (k - 1) + d;
  }

  lemma MulMonotone(d: nat, a: int, b: int)
    requires a <= b
    ensures d * a <= d * b
  {
    assert d * (b - a) >= 0;
    assert d * b == d * a + d * (b - a);
  }

  lemma MulBeyond(d: nat, a: int, b: int)
    requires a < b
    ensures d * a + d <= d * b
  {
    MulMonotone(d, a + 1, b);
    assert d * (a + 1) == d * a + d;
  }

  lemma QuotientUnique(value: int, d: int, q: int, r: int)
    requires d > 0 && value == d * q + r && 0 <= r < d
    ensures value / d == q && value % d == r
  {
    var q' := value / d;
    var k := q - q';
    assert d * q == d * q' + d * k;
    if k >= 1 {
      MulAtLeast(d, k);
    } else if k <= -1 {
      MulAtLeast(d, -k);
    }
  }

  lemma DivideTwice(v: nat, a: int, b: int)
    requires a > 0 && b > 0
    ensures a * b > 0 && v / a / b == v / (a * b)
  {
    var q, r := v / a, v % a;
    var p, t := q / b, q % b;
    MulAtLeast(a, b);
    assert v == a * q + r && q == b * p + t;
    RegroupProduct(a, b, p, t);
    MulBeyond(a, t, b);
    QuotientUnique(v, a * b, p, a * t + r);
  }

  lemma RegroupProduct(a: int, b: int, p: int, t: int)
    ensures a * (b * p + t) == a * b * p + a * t
  {
  }

  lemma Undivide(x: real, y: real)
    requires y != 0.0
    ensures x / y * y == x
  {
  }

  function Pow256(n: nat): (p: nat)
    ensures p > 0
  {
    if n == 0 then 1 else 256 * Pow256(n - 1)
  }

  lemma Pow256Widths()
    ensures Pow256(0) == 1 && Pow256(1) == 0x100 && Pow256(2) == 0x1_0000 && Pow256(3) == 0x100_0000
    ensures Pow256(4) == 0x1_0000_0000 && Pow256(8) == 0x1_0000_0000_0000_0000
  {
    assert Pow256(5) == 0x100_0000_0000;
    assert Pow256(6) == 0x1_0000_0000_0000;
    assert Pow256(7) == 0x100_0000_0000_0000;
  }
}
