/** Where rooms get their randomness from: SplitMix64 in the lobby seeds a
  * xoshiro256** generator for every room (RNG/ and Lobby.cpp). Words are numbers
  * below two to the 64th, and arithmetic on them wraps around. */
module Seeding {
  import opened Arith
  import opened Bits

  const MODULUS: nat := 0x1_0000_0000_0000_0000

  type Word = x: int | 0 <= x < MODULUS

  lemma SmallPowers()
    ensures Power(9) == 512 && Power(1) == 2 && Power(18) == 2 * Power(17)
  {
  }

  lemma ModulusIsPower()
    ensures Pow2(64) == MODULUS == Power(64) && Power(45) == 0x2000_0000_0000 && Power(19) == 0x8_0000
    ensures Power(17) == 0x2_0000 && MODULUS == Power(45) * Power(19)
  {
    hide Power, Pow2;
    SmallPowers();
    Pow2Split(9, 9);
    Pow2Split(18, 18);
    Pow2Split(36, 9);
    Pow2Split(45, 19);
    Pow2Split(18, 1);
  }

  function Add(x: Word, y: Word): Word { (x + y) % MODULUS }

  function Mul(x: Word, y: Word): Word { (x * y) % MODULUS }

  function XorW(x: Word, y: Word): (r: Word)
    ensures r == Xor(x, y)
  {
    ModulusIsPower();
    XorBound(x, y, 64);
    Xor(x, y)
  }

  // -------------------------------------------------------------- SplitMix64

  const GAMMA: Word := 0x9e37_79b9_7f4a_7c15
  const FIRST: Word := 0xbf58_476d_1ce4_e5b9
  const SECOND: Word := 0x94d0_49bb_1331_11eb

  // Their inverses modulo two to the 64th.
  const GAMMA_INVERSE: Word := 0xf1de_83e1_9937_733d
  const FIRST_INVERSE: Word := 0x96de_1b17_3f11_9089
  const SECOND_INVERSE: Word := 0x3196_42b2_d24d_8ec3

  function Shifted(z: Word, k: nat): (r: Word)
    ensures r == XorRight(z, k)
  {
    ShiftBelow(z, k);
    XorW(z, Quotient(z, Power(k)))
  }

  lemma ShiftBelow(z: nat, k: nat)
    ensures Quotient(z, Power(k)) <= z
  {
    QuotientBelow(z, Power(k));
  }

  lemma QuotientBelow(z: nat, p: nat)
    requires p >= 1
    ensures Quotient(z, p) <= z
  {
    var q := Quotient(z, p);
    DivModEquation(z, p);
    MulMonotone(1, p, q);
  }

  function Unshifted(y: Word, k: nat): (r: Word)
    requires k > 0
    ensures r == UnxorRight(y, k)
  {
    ModulusIsPower();
    UndoneBound(y, k, 64);
    UnxorRight(y, k)
  }

  function Mix(s: Word): Word {
    Shifted(Mul(Shifted(Mul(Shifted(s, 30), FIRST), 27), SECOND), 31)
  }

  function Unmix(r: Word): Word {
    Unshifted(Mul(Unshifted(Mul(Unshifted(r, 31), SECOND_INVERSE), 27), FIRST_INVERSE), 30)
  }

  lemma InverseMultiplies(z: Word, c: Word, i: Word, q: nat)
    requires c * i == 1 + MODULUS * q
    ensures Mul(Mul(z, c), i) == z
  {
    var x := z * c;
    DivModEquation(x, MODULUS);
    assert x * i == z + MODULUS * (z * q) by {
      Regroup(z, c, i);
      assert z * (1 + MODULUS * q) == z + MODULUS * (z * q);
    }
    assert x * i == MODULUS * ((x / MODULUS) * i) + (x % MODULUS) * i by {
      assert (MODULUS * (x / MODULUS) + x % MODULUS) * i == MODULUS * ((x / MODULUS) * i) + (x % MODULUS) * i;
    }
    var d := z * q - (x / MODULUS) * i;
    assert (x % MODULUS) * i == MODULUS * d + z;
    DivModUnique((x % MODULUS) * i, MODULUS, d, z);
  }

  lemma Regroup(x: int, y: int, z: int)
    ensures (x * y) * z == x * (y * z)
  {
  }

  lemma TimesUndone(z: Word)
    ensures Mul(Mul(z, FIRST), FIRST_INVERSE) == z == Mul(Mul(z, FIRST_INVERSE), FIRST)
    ensures Mul(Mul(z, SECOND), SECOND_INVERSE) == z == Mul(Mul(z, SECOND_INVERSE), SECOND)
    ensures Mul(Mul(z, GAMMA), GAMMA_INVERSE) == z
  {
    hide Mul;
    InverseMultiplies(z, FIRST, FIRST_INVERSE, FIRST * FIRST_INVERSE / MODULUS);
    InverseMultiplies(z, FIRST_INVERSE, FIRST, FIRST * FIRST_INVERSE / MODULUS);
    InverseMultiplies(z, SECOND, SECOND_INVERSE, SECOND * SECOND_INVERSE / MODULUS);
    InverseMultiplies(z, SECOND_INVERSE, SECOND, SECOND * SECOND_INVERSE / MODULUS);
    InverseMultiplies(z, GAMMA, GAMMA_INVERSE, GAMMA * GAMMA_INVERSE / MODULUS);
  }

  lemma ShiftUndone(z: Word, k: nat)
    requires k > 0
    ensures Unshifted(Shifted(z, k), k) == z == Shifted(Unshifted(z, k), k)
  {
    RightUndone(z, k);
    RightRedone(z, k);
  }

  /** The mixing function is a bijection of the words. */
  lemma MixBijective(s: Word)
    ensures Unmix(Mix(s)) == s && Mix(Unmix(s)) == s
  {
    hide Shifted, Unshifted, Mul, FIRST, SECOND, FIRST_INVERSE, SECOND_INVERSE;
    var a := Shifted(s, 30);
    var b := Mul(a, FIRST);
    var c := Shifted(b, 27);
    var d := Mul(c, SECOND);
    ShiftUndone(s, 30);
    TimesUndone(a);
    ShiftUndone(b, 27);
    TimesUndone(c);
    ShiftUndone(d, 31);
    var d' := Unshifted(s, 31);
    var c' := Mul(d', SECOND_INVERSE);
    var b' := Unshifted(c', 27);
    var a' := Mul(b', FIRST_INVERSE);
    ShiftUndone(s, 31);
    TimesUndone(d');
    ShiftUndone(c', 27);
    TimesUndone(b');
    ShiftUndone(a', 30);
  }

  /** The `n`th number drawn, as a function of the state before. */
  function Draw(s: Word, n: Word): Word {
    Mix(Add(s, Mul(n, GAMMA)))
  }

  lemma AddCancels(s: Word, x: Word, y: Word)
    requires Add(s, x) == Add(s, y)
    ensures x == y
  {
    DivModEquation(s + x, MODULUS);
    DivModEquation(s + y, MODULUS);
    MulSmall(MODULUS, (s + x) / MODULUS - (s + y) / MODULUS);
  }

  /** No number is drawn twice until all have been. */
  lemma DrawsDistinct(s: Word, n: Word, m: Word)
    requires n != m
    ensures Draw(s, n) != Draw(s, m)
  {
    hide Mix, Unmix, Add, Mul, GAMMA, GAMMA_INVERSE;
    if Draw(s, n) == Draw(s, m) {
      MixBijective(Add(s, Mul(n, GAMMA)));
      MixBijective(Add(s, Mul(m, GAMMA)));
      AddCancels(s, Mul(n, GAMMA), Mul(m, GAMMA));
      TimesUndone(n);
      TimesUndone(m);
    }
  }

  lemma NextDraw(s: Word, n: Word, t: Word)
    requires n + 1 < MODULUS && t == Add(s, Mul(n, GAMMA))
    ensures Add(t, GAMMA) == Add(s, Mul(n + 1, GAMMA))
  {
    var x, y := n * GAMMA, s + Mul(n, GAMMA);
    DivModEquation(x, MODULUS);
    DivModEquation(y, MODULUS);
    var z := t + GAMMA;
    DivModEquation(z, MODULUS);
    DivModUnique(x + GAMMA, MODULUS, x / MODULUS + (x % MODULUS + GAMMA) / MODULUS, (x % MODULUS + GAMMA) % MODULUS);
    assert (n + 1) * GAMMA == x + GAMMA;
    var w := (x % MODULUS + GAMMA) % MODULUS;
    DivModUnique(s + w, MODULUS, z / MODULUS + y / MODULUS - (x % MODULUS + GAMMA) / MODULUS, z % MODULUS);
  }

  class SplitMix64 {
    var s: Word

    constructor (initialState: Word)
      ensures s == initialState
    {
      s := initialState;
    }

    method Next() returns (r: Word)
      modifies this
      ensures s == Add(old(s), GAMMA) && r == Mix(s)
    {
      hide Mul, Shifted;
      s := Add(s, GAMMA);
      var z := s;
      z := Mul(Shifted(z, 30), FIRST);
      z := Mul(Shifted(z, 27), SECOND);
      r := Shifted(z, 31);
    }
  }

  // ------------------------------------------------------------- xoshiro256**

  datatype Xoshiro = Xoshiro(s0: Word, s1: Word, s2: Word, s3: Word)

  const ZERO := Xoshiro(0, 0, 0, 0)

  function Left(x: Word, k: nat): Word { (x * Power(k)) % MODULUS }

  /** The low bits that leave at one end come in at the other. */
  function Rotl(x: Word, k: nat): Word
    requires k <= 64
  {
    Add(Left(x, k), Quotient(x, Power(64 - k)) % MODULUS)
  }

  function Step(x: Xoshiro): Xoshiro {
    var c := XorW(x.s2, x.s0);
    var d := XorW(x.s3, x.s1);
    Xoshiro(XorW(x.s0, d), XorW(x.s1, c), XorW(c, Left(x.s1, 17)), Rotl(d, 45))
  }

  lemma RotlParts(x: Word)
    ensures Rotl(x, 45) == Power(45) * (x % Power(19)) + x / Power(19)
    ensures x / Power(19) < Power(45)
  {
    ModulusIsPower();
    ModScale(Power(45), x, Power(19));
  }

  lemma RotlInjective(x: Word, y: Word)
    requires Rotl(x, 45) == Rotl(y, 45)
    ensures x == y
  {
    hide Rotl;
    RotlParts(x);
    RotlParts(y);
    ModulusIsPower();
    DivModUnique(Rotl(x, 45), Power(45), x % Power(19), x / Power(19));
    DivModUnique(Rotl(y, 45), Power(45), y % Power(19), y / Power(19));
  }

  lemma LeftInjective(s: Word, t: Word)
    requires XorW(s, Left(s, 17)) == XorW(t, Left(t, 17))
    ensures s == t
  {
    hide *;
    ModulusIsPower();
    LeftIs(s);
    LeftIs(t);
    LeftDetermines(s, t, 17, 64, 64);
  }

  lemma LeftIs(s: Word)
    ensures Left(s, 17) == (s * Power(17)) % Power(64) && s % Pow2(64) == s < Pow2(64)
  {
    hide Power, Pow2;
    ModulusIsPower();
  }

  /** Mixing two words with the same third one leaves their mixture as it is. */
  lemma {:induction false} XorMixture(a: nat, b: nat, c: nat)
    ensures Xor(Xor(a, c), Xor(c, b)) == Xor(a, b)
    decreases a + b + c
  {
    hide Xor;
    if a + b + c == 0 {
      XorZero(0);
    } else {
      XorBits(a, c);
      XorBits(c, b);
      XorMixture(a / 2, b / 2, c / 2);
      XorBits(Xor(a, c), Xor(c, b));
      XorBits(a, b);
    }
  }

  /** No two states have the same successor. */
  lemma StepInjective(x: Xoshiro, y: Xoshiro)
    requires Step(x) == Step(y)
    ensures x == y
  {
    hide Rotl, Left;
    var c, d := Xor(x.s2, x.s0), Xor(x.s3, x.s1);
    var e, f := Xor(y.s2, y.s0), Xor(y.s3, y.s1);
    RotlInjective(XorW(x.s3, x.s1), XorW(y.s3, y.s1));
    XorSame(x.s0, y.s0, d);
    XorMixture(x.s1, Left(x.s1, 17), c);
    XorMixture(y.s1, Left(y.s1, 17), e);
    LeftInjective(x.s1, y.s1);
    XorSame(x.s3, y.s3, x.s1);
    XorCommutes(x.s1, c);
    XorCommutes(y.s1, e);
    XorSame(c, e, x.s1);
    XorSame(x.s2, y.s2, x.s0);
  }

  lemma ZeroStays()
    ensures Step(ZERO) == ZERO
  {
    assert Xor(0, 0) == 0;
    assert Left(0, 17) == 0 by {
      assert 0 * Power(17) == 0;
    }
    RotlParts(0);
    hide Rotl, Left;
    ModulusIsPower();
  }

  function Steps(x: Xoshiro, n: nat): Xoshiro {
    if n == 0 then x else Step(Steps(x, n - 1))
  }

  /** Rooms seeded apart stay apart. */
  lemma {:induction false} StaysApart(x: Xoshiro, y: Xoshiro, n: nat)
    requires x != y
    ensures Steps(x, n) != Steps(y, n)
  {
    hide Step;
    if n > 0 {
      StaysApart(x, y, n - 1);
      if Steps(x, n) == Steps(y, n) {
        StepInjective(Steps(x, n - 1), Steps(y, n - 1));
      }
    }
  }

  lemma {:induction false} ZeroForever(n: nat)
    ensures Steps(ZERO, n) == ZERO
  {
    hide Step;
    if n > 0 {
      ZeroForever(n - 1);
      ZeroStays();
    }
  }

  class Xoshiro256StarStar {
    var s0: Word
    var s1: Word
    var s2: Word
    var s3: Word

    ghost function State(): Xoshiro
      reads this
    {
      Xoshiro(s0, s1, s2, s3)
    }

    constructor (seed: Xoshiro)
      ensures State() == seed
    {
      s0, s1, s2, s3 := seed.s0, seed.s1, seed.s2, seed.s3;
    }

    method Next() returns (result: Word)
      modifies this
      ensures State() == Step(old(State()))
      ensures result == Mul(Rotl(Mul(old(s1), 5), 7), 9)
    {
      hide Mul, Rotl, Left;
      result := Mul(Rotl(Mul(s1, 5), 7), 9);
      var t := Left(s1, 17);
      s2 := XorW(s2, s0);
      s3 := XorW(s3, s1);
      s1 := XorW(s1, s2);
      s0 := XorW(s0, s3);
      s2 := XorW(s2, t);
      s3 := Rotl(s3, 45);
    }
  }

  // -------------------------------------------------------------- a room's seed

  ghost predicate Distinct(x: Xoshiro) {
    x.s0 != x.s1 && x.s0 != x.s2 && x.s0 != x.s3 && x.s1 != x.s2 && x.s1 != x.s3 && x.s2 != x.s3
  }

  function Seed(s: Word): Xoshiro {
    Xoshiro(Draw(s, 1), Draw(s, 2), Draw(s, 3), Draw(s, 4))
  }

  /** `MakeRoom`: four numbers from the lobby's generator seed the room's. */
  method SeedRoom(rng: SplitMix64) returns (seed: Xoshiro)
    modifies rng
    ensures seed == Seed(old(rng.s)) && rng.s == Add(old(rng.s), Mul(4, GAMMA))
  {
    hide Mix, Add, Mul, GAMMA;
    ghost var s := rng.s;
    FirstDraw(s);
    var a := rng.Next();
    NextDraw(s, 1, rng.s);
    var b := rng.Next();
    NextDraw(s, 2, rng.s);
    var c := rng.Next();
    NextDraw(s, 3, rng.s);
    var d := rng.Next();
    seed := Xoshiro(a, b, c, d);
  }

  lemma FirstDraw(s: Word)
    ensures Add(s, GAMMA) == Add(s, Mul(1, GAMMA))
  {
  }

  /** Whatever state the lobby is in, the four words of a room's seed differ, and
    * however long the room draws, its generator never reaches the all-zero
    * state it could not leave. */
  lemma RoomNeverZero(s: Word, n: nat)
    ensures Distinct(Seed(s)) && Steps(Seed(s), n) != ZERO
  {
    hide Draw, Steps;
    DrawsDistinct(s, 1, 2);
    DrawsDistinct(s, 1, 3);
    DrawsDistinct(s, 1, 4);
    DrawsDistinct(s, 2, 3);
    DrawsDistinct(s, 2, 4);
    DrawsDistinct(s, 3, 4);
    StaysApart(Seed(s), ZERO, n);
    ZeroForever(n);
  }
}
