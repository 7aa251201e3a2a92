/** The few facts about division and remainder the models need. */
module Arith {
  lemma MulAtLeast(d: int, k: int)
    requires d > 0 && k >= 1
    ensures d * k >= d
  {
  }

  lemma MulSmall(d: int, k: int)
    requires d > 0 && -d < d * k < d
    ensures k == 0
  {
    if k >= 1 {
      MulAtLeast(d, k);
    } else if k <= -1 {
      MulAtLeast(d, -k);
    }
  }

  /** Quotient and remainder are determined by the division equation. */
  lemma DivModUnique(x: int, d: int, q: int, r: int)
    requires d > 0 && x == d * q + r && 0 <= r < d
    ensures x / d == q && x % d == r
  {
    var k := x / d - q;
    assert x == d * (x / d) + x % d;
    assert d * (x / d) == d * q + d * k;
    MulSmall(d, k);
  }

  lemma DivModEquation(x: int, d: int)
    requires d > 0
    ensures x == d * (x / d) + x % d && 0 <= x % d < d
  {
  }

  lemma ModScale(u: nat, n: nat, m: nat)
    requires u > 0 && m > 0 && u * m > 0
    ensures (u * n) % (u * m) == u * (n % m)
  {
    var q, r := n / m, n % m;
    DivModEquation(n, m);
    assert u * n == (u * m) * q + u * r by {
      assert u * n == u * (m * q) + u * r;
      assert u * (m * q) == (u * m) * q;
    }
    assert u * r < u * m;
    DivModUnique(u * n, u * m, q, u * r);
  }

  lemma MulDistributes(x: int, y: int, p: int)
    ensures (x + y) * p == x * p + y * p
  {
  }

  lemma MulRegroups(x: int, y: int, p: int)
    ensures (x * y) * p == y * (x * p)
  {
  }

  lemma MulMonotone(x: int, y: int, p: int)
    requires x <= y && p >= 0
    ensures x * p <= y * p
  {
  }

  lemma MulCancels(a: int, b: int, p: int)
    requires p > 0 && a * p == b * p
    ensures a == b
  {
    MulDistributes(a - b, b, p);
    assert (a - b) * p == 0;
    MulSmall(p, a - b);
  }

  lemma QuotientAtMostOne(q: nat, h: nat)
    requires 0 < h && q < 2 * h
    ensures q / h <= 1
  {
    if q < h {
      DivModUnique(q, h, 0, q);
    } else {
      DivModUnique(q, h, 1, q - h);
    }
  }

  ghost function Pow2(n: nat): (p: nat)
    ensures p >= 1
  {
    if n == 0 then 1 else 2 * Pow2(n - 1)
  }

  lemma {:induction false} Pow2Split(a: nat, b: nat)
    ensures Pow2(a + b) == Pow2(a) * Pow2(b)
    decreases a
  {
    if a > 0 {
      Pow2Split(a - 1, b);
      MulRegroups(Pow2(a - 1), 2, Pow2(b));
    }
  }

  lemma Pow2Double(n: nat)
    requires n > 0
    ensures Pow2(n) == 2 * Pow2(n - 1)
  {
  }

  lemma Pow2At28()
    ensures Pow2(0) == 1 && Pow2(4) == 16 && Pow2(28) == 0x1000_0000
  {
    assert Pow2(7) == 128;
    Pow2Split(7, 7);
    Pow2Split(14, 14);
  }

  lemma DivDiv(x: nat, a: nat, b: nat)
    requires a > 0 && b > 0 && a * b > 0
    ensures (x / a) / b == x / (a * b)
  {
    var q, r := x / a, x % a;
    DivModEquation(x, a);
    DivModEquation(q, b);
    MulRegroups(a, q / b, b);
    assert a * (b * (q / b) + q % b) == (a * b) * (q / b) + a * (q % b) by {
      assert a * (b * (q / b)) == (a * b) * (q / b);
    }
    MulMonotone(q % b + 1, b, a);
    MulDistributes(q % b, 1, a);
    DivModUnique(x, a * b, q / b, a * (q % b) + r);
  }

  lemma DivDouble(x: nat, y: nat)
    requires y > 0
    ensures (2 * x) / (2 * y) == x / y
  {
    var q, r := x / y, x % y;
    assert 2 * x == q * (2 * y) + 2 * r;
    DivModUnique(2 * x, 2 * y, q, 2 * r);
  }

  lemma HalveMod(x: nat, p: nat)
    requires p >= 1
    ensures x % (2 * p) == x % 2 + 2 * ((x / 2) % p)
  {
    var y := x / 2;
    DivModEquation(y, p);
    DivModUnique(x, 2 * p, y / p, x % 2 + 2 * (y % p)) by {
      assert 2 * p * (y / p) == 2 * (p * (y / p));
    }
  }
}
