/** Exclusive or and shifts of machine words, on numbers. */
module Bits {
  import opened Arith

  function Xor(a: nat, b: nat): nat
    decreases a + b
  {
    if a == 0 && b == 0 then 0 else (a % 2 + b % 2) % 2 + 2 * Xor(a / 2, b / 2)
  }

  /** What a shift to the right leaves. */
  function Quotient(z: nat, p: nat): (q: nat)
    requires p >= 1
    ensures q == z / p
  {
    z / p
  }

  lemma XorBits(a: nat, b: nat)
    ensures Xor(a, b) % 2 == (a % 2 + b % 2) % 2 && Xor(a, b) / 2 == Xor(a / 2, b / 2)
    ensures Xor(a, b) == (a % 2 + b % 2) % 2 + 2 * Xor(a / 2, b / 2)
  {
  }

  lemma {:induction false} XorCommutes(a: nat, b: nat)
    ensures Xor(a, b) == Xor(b, a)
    decreases a + b
  {
    if a + b > 0 {
      XorCommutes(a / 2, b / 2);
    }
  }

  lemma {:induction false} XorZero(a: nat)
    ensures Xor(a, 0) == a == Xor(0, a)
    decreases a
  {
    if a > 0 {
      XorZero(a / 2);
    }
  }

  lemma {:induction false} XorSelf(a: nat, b: nat)
    ensures Xor(a, b) == 0 <==> a == b
    decreases a + b
  {
    if a + b > 0 {
      XorSelf(a / 2, b / 2);
      XorBits(a, b);
    }
  }

  lemma {:induction false} XorTwice(a: nat, b: nat)
    ensures Xor(Xor(a, b), b) == a
    decreases a + b
  {
    hide Xor;
    if a + b == 0 {
      XorZero(0);
    } else {
      XorBits(a, b);
      XorTwice(a / 2, b / 2);
      XorBits(Xor(a, b), b);
    }
  }

  lemma XorSame(a: nat, b: nat, x: nat)
    requires Xor(a, x) == Xor(b, x)
    ensures a == b
  {
    XorTwice(a, x);
    XorTwice(b, x);
  }

  lemma {:induction false} XorBound(a: nat, b: nat, n: nat)
    requires a < Pow2(n) && b < Pow2(n)
    ensures Xor(a, b) < Pow2(n)
    decreases n
  {
    if n > 0 {
      XorBound(a / 2, b / 2, n - 1);
      XorBits(a, b);
    }
  }

  /** Shifting right goes through an exclusive or. */
  lemma {:induction false} XorShiftRight(a: nat, b: nat, k: nat)
    ensures Quotient(Xor(a, b), Pow2(k)) == Xor(Quotient(a, Pow2(k)), Quotient(b, Pow2(k)))
    decreases k
  {
    hide Pow2, Xor;
    if k == 0 {
      Pow2Zero();
    } else {
      Pow2Double(k);
      XorBits(a, b);
      XorShiftRight(a / 2, b / 2, k - 1);
      HalfFirst(a, Pow2(k - 1));
      HalfFirst(b, Pow2(k - 1));
      HalfFirst(Xor(a, b), Pow2(k - 1));
    }
  }

  lemma HalfFirst(x: nat, p: nat)
    requires p >= 1
    ensures Quotient(x, 2 * p) == Quotient(x / 2, p)
  {
    DivDiv(x, 2, p);
  }

  /** In the low bits, an exclusive or with a known word determines the other. */
  lemma {:induction false} XorCancels(x: nat, a: nat, b: nat, n: nat)
    requires Xor(x, a) % Pow2(n) == Xor(x, b) % Pow2(n)
    ensures a % Pow2(n) == b % Pow2(n)
    decreases n
  {
    XorLowDetermines(x, x, a, b, n);
  }

  /** What a mask leaves. */
  function Remainder(z: nat, p: nat): nat
    requires p >= 1
  {
    z % p
  }

  /** The same when only the low bits of the known words agree. */
  lemma XorLowDetermines(x: nat, y: nat, a: nat, b: nat, n: nat)
    requires x % Pow2(n) == y % Pow2(n) && Xor(x, a) % Pow2(n) == Xor(y, b) % Pow2(n)
    ensures a % Pow2(n) == b % Pow2(n)
  {
    hide Xor, Pow2;
    LowDetermines(x, y, a, b, n);
  }

  lemma {:induction false} LowDetermines(x: nat, y: nat, a: nat, b: nat, n: nat)
    requires Remainder(x, Pow2(n)) == Remainder(y, Pow2(n))
    requires Remainder(Xor(x, a), Pow2(n)) == Remainder(Xor(y, b), Pow2(n))
    ensures Remainder(a, Pow2(n)) == Remainder(b, Pow2(n))
    decreases n
  {
    hide *;
    if n == 0 {
      AllSameAtOne(a, b);
    } else {
      Pow2Double(n);
      var p := Pow2(n - 1);
      HalvesAgree(x, y, p);
      HalvesAgree(Xor(x, a), Xor(y, b), p);
      XorBits(x, a);
      XorBits(y, b);
      ParityDetermines(x % 2, a % 2, b % 2);
      LowDetermines(x / 2, y / 2, a / 2, b / 2, n - 1);
      HalvesJoin(a, b, p);
    }
  }

  lemma AllSameAtOne(u: nat, v: nat)
    ensures Remainder(u, Pow2(0)) == Remainder(v, Pow2(0))
  {
  }

  lemma ParityDetermines(x: nat, a: nat, b: nat)
    requires x < 2 && a < 2 && b < 2 && (x + a) % 2 == (x + b) % 2
    ensures a == b
  {
  }

  lemma Pow2Zero()
    ensures Pow2(0) == 1
  {
  }

  lemma HalvesAgree(u: nat, v: nat, p: nat)
    requires p >= 1 && Remainder(u, 2 * p) == Remainder(v, 2 * p)
    ensures u % 2 == v % 2 && Remainder(u / 2, p) == Remainder(v / 2, p)
  {
    hide *;
    HalveRemainder(u, p);
    HalveRemainder(v, p);
    BitAndRest(u % 2, Remainder(u / 2, p), v % 2, Remainder(v / 2, p));
  }

  lemma HalveRemainder(u: nat, p: nat)
    requires p >= 1
    ensures Remainder(u, 2 * p) == u % 2 + 2 * Remainder(u / 2, p)
  {
    HalveMod(u, p);
  }

  lemma BitAndRest(a: nat, x: nat, b: nat, y: nat)
    requires a < 2 && b < 2 && a + 2 * x == b + 2 * y
    ensures a == b && x == y
  {
  }

  lemma HalvesJoin(u: nat, v: nat, p: nat)
    requires p >= 1 && u % 2 == v % 2 && Remainder(u / 2, p) == Remainder(v / 2, p)
    ensures Remainder(u, 2 * p) == Remainder(v, 2 * p)
  {
    hide *;
    HalveRemainder(u, p);
    HalveRemainder(v, p);
  }

  /** Bits above the low `n` do not reach them. */
  lemma XorHighOnly(x: nat, b: nat, n: nat)
    requires b % Pow2(n) == 0
    ensures Xor(x, b) % Pow2(n) == x % Pow2(n)
  {
    hide Xor, Pow2;
    HighOnly(x, b, n);
  }

  lemma {:induction false} HighOnly(x: nat, b: nat, n: nat)
    requires Remainder(b, Pow2(n)) == 0
    ensures Remainder(Xor(x, b), Pow2(n)) == Remainder(x, Pow2(n))
    decreases n
  {
    hide *;
    if n == 0 {
      AllSameAtOne(Xor(x, b), x);
    } else {
      Pow2Double(n);
      var p := Pow2(n - 1);
      NoLowBits(b, p);
      XorBits(x, b);
      HighOnly(x / 2, b / 2, n - 1);
      HalvesJoin(Xor(x, b), x, p);
    }
  }

  lemma NoLowBits(b: nat, p: nat)
    requires p >= 1 && Remainder(b, 2 * p) == 0
    ensures b % 2 == 0 && Remainder(b / 2, p) == 0
  {
    hide *;
    HalveRemainder(b, p);
    BitAndRest(b % 2, Remainder(b / 2, p), 0, 0);
  }

  // ------------------------------------------------------ words mixed with
  // ------------------------------------------------------ themselves, shifted

  function XorRight(z: nat, k: nat): nat { Xor(z, Quotient(z, Power(k))) }

  /** A power of two, to be computed with. */
  function Power(k: nat): (p: nat)
    ensures p == Pow2(k) >= 1
  {
    if k == 0 then 1 else 2 * Power(k - 1)
  }

  function UnxorRight(y: nat, k: nat): nat
    requires k > 0
    decreases y
  {
    if y == 0 then 0
    else
      ShiftSmaller(y, k);
      Xor(y, UnxorRight(Quotient(y, Power(k)), k))
  }

  lemma ShiftSmaller(y: nat, k: nat)
    requires k > 0 && y > 0
    ensures Quotient(y, Pow2(k)) < y
  {
    hide Pow2;
    Pow2Double(k);
    QuotientSmaller(y, Pow2(k));
  }

  lemma QuotientSmaller(y: nat, p: nat)
    requires p >= 2 && y > 0
    ensures Quotient(y, p) < y
  {
    var q := Quotient(y, p);
    DivModEquation(y, p);
    MulMonotone(2, p, q);
  }

  lemma {:induction false} RightUndone(z: nat, k: nat)
    requires k > 0
    ensures UnxorRight(XorRight(z, k), k) == z
    decreases z
  {
    hide Pow2, Power, Xor, Quotient;
    var w := Quotient(z, Pow2(k));
    if z == 0 {
      XorZero(0);
      ZeroShifted(k);
    } else {
      ShiftSmaller(z, k);
      XorSelf(z, w);
      XorShiftRight(z, w, k);
      RightUndone(w, k);
      XorTwice(z, w);
    }
  }

  lemma ZeroShifted(k: nat)
    ensures Quotient(0, Pow2(k)) == 0
  {
    hide Pow2;
    DivModUnique(0, Pow2(k), 0, 0);
  }

  lemma UnxorUnfolds(y: nat, k: nat)
    requires k > 0
    ensures UnxorRight(y, k) == Xor(y, UnxorRight(Quotient(y, Pow2(k)), k))
  {
    hide Pow2, Power;
    if y == 0 {
      assert Xor(0, 0) == 0;
      DivModUnique(0, Pow2(k), 0, 0);
    }
  }

  lemma {:induction false} UndoneShifts(y: nat, k: nat)
    requires k > 0
    ensures Quotient(UnxorRight(y, k), Pow2(k)) == UnxorRight(Quotient(y, Pow2(k)), k)
    decreases y
  {
    hide Pow2, Power, UnxorRight, Xor;
    var w := Quotient(y, Pow2(k));
    UnxorUnfolds(y, k);
    if y > 0 {
      ShiftSmaller(y, k);
      XorShiftRight(y, UnxorRight(w, k), k);
      UndoneShifts(w, k);
      UnxorUnfolds(w, k);
    } else {
      UnxorZero(k);
      DivModUnique(0, Pow2(k), 0, 0);
    }
  }

  lemma UnxorZero(k: nat)
    requires k > 0
    ensures UnxorRight(0, k) == 0
  {
  }

  lemma RightRedone(y: nat, k: nat)
    requires k > 0
    ensures XorRight(UnxorRight(y, k), k) == y
  {
    hide Pow2, UnxorRight, Xor;
    UndoneShifts(y, k);
    UnxorUnfolds(y, k);
    XorTwice(y, UnxorRight(Quotient(y, Pow2(k)), k));
  }

  lemma {:induction false} UndoneBound(y: nat, k: nat, n: nat)
    requires k > 0 && y < Pow2(n)
    ensures UnxorRight(y, k) < Pow2(n)
    decreases y
  {
    if y > 0 {
      ShiftSmaller(y, k);
      UndoneBound(Quotient(y, Pow2(k)), k, n);
      XorBound(y, UnxorRight(Quotient(y, Pow2(k)), k), n);
    }
  }

  /** A word is determined by itself mixed with itself shifted left. */
  lemma {:induction false} LeftDetermines(s: nat, t: nat, k: nat, n: nat, i: nat)
    requires k > 0 && i <= n && s < Pow2(n) && t < Pow2(n)
    requires Xor(s, (s * Power(k)) % Power(n)) == Xor(t, (t * Power(k)) % Power(n))
    ensures s % Pow2(i) == t % Pow2(i)
    decreases i
  {
    hide Xor, Pow2, Power;
    if i == 0 {
      Pow2Zero();
    } else {
      LeftDetermines(s, t, k, n, i - 1);
      var ls, lt := (s * Power(k)) % Power(n), (t * Power(k)) % Power(n);
      ShiftedLow(s, t, k, n, i);
      XorCommutes(s, ls);
      XorCommutes(t, lt);
      XorLowDetermines(ls, lt, s, t, i);
    }
  }

  lemma ShiftedLow(s: nat, t: nat, k: nat, n: nat, i: nat)
    requires k > 0 && 0 < i <= n && s % Pow2(i - 1) == t % Pow2(i - 1)
    ensures ((s * Power(k)) % Power(n)) % Pow2(i) == ((t * Power(k)) % Power(n)) % Pow2(i)
  {
    hide Pow2, Power;
    LowOfLow(s * Power(k), n, i);
    LowOfLow(t * Power(k), n, i);
    ShiftedMod(s, t, k, i);
  }

  lemma LowOfLow(x: nat, n: nat, i: nat)
    requires i <= n
    ensures (x % Pow2(n)) % Pow2(i) == x % Pow2(i)
  {
    hide Pow2;
    Pow2Split(i, n - i);
    ModOfMod(x, Pow2(i), Pow2(n - i));
  }

  lemma ModOfMod(x: nat, p: nat, q: nat)
    requires p >= 1 && q >= 1 && p * q >= 1
    ensures (x % (p * q)) % p == x % p
  {
    var r, d := x % (p * q), x / (p * q);
    DivModEquation(x, p * q);
    DivModEquation(r, p);
    assert (p * q) * d == p * (q * d);
    assert p * (q * d) + p * (r / p) == p * (q * d + r / p);
    DivModUnique(x, p, q * d + r / p, r % p);
  }

  lemma ShiftedMod(s: nat, t: nat, k: nat, i: nat)
    requires k > 0 && i > 0 && s % Pow2(i - 1) == t % Pow2(i - 1)
    ensures (s * Power(k)) % Pow2(i) == (t * Power(k)) % Pow2(i)
  {
    hide Pow2, Power;
    Pow2Double(i);
    Pow2Double(k);
    var p, h := Pow2(i - 1), Pow2(k - 1);
    DivModEquation(s, p);
    DivModEquation(t, p);
    ShiftedRest(s, p, h, s / p, s % p);
    ShiftedRest(t, p, h, t / p, t % p);
  }

  lemma ShiftedRest(s: nat, p: nat, h: nat, q: nat, r: nat)
    requires p >= 1 && s == p * q + r
    ensures (s * (2 * h)) % (2 * p) == (r * (2 * h)) % (2 * p)
  {
    var x := r * (2 * h);
    DivModEquation(x, 2 * p);
    assert s * (2 * h) == (2 * p) * (q * h) + x by {
      assert (p * q) * (2 * h) == (2 * p) * (q * h);
      assert s * (2 * h) == (p * q) * (2 * h) + r * (2 * h);
    }
    assert (2 * p) * (q * h) + (2 * p) * (x / (2 * p)) == (2 * p) * (q * h + x / (2 * p));
    DivModUnique(s * (2 * h), 2 * p, q * h + x / (2 * p), x % (2 * p));
  }
}
