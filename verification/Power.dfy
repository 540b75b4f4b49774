/** The two integer powers: `AcuValue_PowU64` of the VM, by repeated squaring with shortcuts, and
    `IntPow` of the constant folder. */
module Power {
  import opened Words

  /** Halving an exponent: one squaring step. */
  lemma HalveExponent(base: u64, exp: nat)
    ensures exp % 2 == 0 ==> PowWord(base, exp) == PowWord(Mul(base, base), exp / 2)
    ensures exp % 2 == 1 ==> PowWord(base, exp) == Mul(base, PowWord(Mul(base, base), exp / 2))
  {
    PowSquare(base, exp / 2);
    PowCongruent(base * base, exp / 2);
    if exp % 2 == 1 {
      assert Pow(base, exp) == base * Pow(base, 2 * (exp / 2));
      WrapMul(base, Pow(base, 2 * (exp / 2)));
    }
  }

  lemma MulAssociates(x: u64, y: u64, z: u64)
    ensures Mul(Mul(x, y), z) == Mul(x, Mul(y, z))
  {
    WrapMul(x * y, z);
    WrapMul(x, y * z);
    assert x * y * z == x * (y * z);
  }

  lemma {:induction false} PowOfSmall(exp: nat)
    requires exp > 0
    ensures Pow(0, exp) == 0 && Pow(1, exp) == 1 && Pow(2, exp) == Pow2(exp)
  {
    if exp > 1 {
      PowOfSmall(exp - 1);
    } else {
      PowSmall(0);
      PowSmall(1);
      PowSmall(2);
    }
  }

  lemma HighPowersOfTwoWrap(exp: nat)
    requires exp >= 64
    ensures Wrap(Pow2(exp)) == 0
  {
    Pow2Add(64, exp - 64);
    Pow2Values();
    WrapUnique(Pow2(exp), Pow2(exp - 64), 0);
  }

  lemma {:induction false} OddPart(exp: nat)
    requires exp > 0
    ensures exp == exp / Pow2(TrailingZeros(exp)) * Pow2(TrailingZeros(exp))
    ensures exp / Pow2(TrailingZeros(exp)) % 2 == 1
  {
    if exp % 2 == 0 {
      var half, p := exp / 2, Pow2(TrailingZeros(exp / 2));
      OddPart(half);
      assert Pow2(TrailingZeros(exp)) == 2 * p;
      DivModUnique(exp, 2 * p, half / p, 0);
    }
  }

  lemma SquareStep(base: u64, exp: nat, tz: nat)
    requires tz > 0
    ensures PowWord(base, exp * Pow2(tz)) == PowWord(Mul(base, base), exp * Pow2(tz - 1))
  {
    var half := exp * Pow2(tz - 1);
    assert exp * Pow2(tz) == 2 * half;
    HalveExponent(base, 2 * half);
  }

  /** `AcuValue_PowU64`: the power modulo 2^64, for every base and every exponent. */
  method PowU64(a: u64, b: u64) returns (r: u64)
    ensures r == PowWord(a, b)
  {
    if b == 0 { return 1; }
    if a <= 2 {
      PowOfSmall(b);
      if a == 2 {
        if b < 64 { return Shl(1, b); }
        HighPowersOfTwoWrap(b);
        return 0;
      }
      return a;
    }
    r := PowBySquaring(a, b);
  }

  /** The general case: the trailing zeros of the exponent first, then bit by bit. */
  method PowBySquaring(a: u64, b: u64) returns (r: u64)
    requires b > 0
    ensures r == PowWord(a, b)
  {
    hide PowWord;
    hide Mul;
    var base: u64, exp: nat := a, b;
    if exp % 2 == 0 {
      var tz := TrailingZeros(exp);
      OddPart(exp);
      exp := exp / Pow2(tz);
      while tz > 0
        invariant exp % 2 == 1 && PowWord(base, exp * Pow2(tz)) == PowWord(a, b)
        decreases tz
      {
        SquareStep(base, exp, tz);
        base := Mul(base, base);
        tz := tz - 1;
      }
      assert exp * Pow2(0) == exp;
    }
    r := base;
    HalveExponent(base, exp);
    exp := exp / 2;
    while exp > 0
      invariant Mul(r, PowWord(Mul(base, base), exp)) == PowWord(a, b)
      decreases exp
    {
      base := Mul(base, base);
      HalveExponent(base, exp);
      if exp % 2 == 1 {
        MulAssociates(r, base, PowWord(Mul(base, base), exp / 2));
        r := Mul(r, base);
      }
      exp := exp / 2;
    }
    PowZero(r, Mul(base, base));
  }

  lemma PowZero(r: u64, base: u64)
    ensures Mul(r, PowWord(base, 0)) == r
  {
  }

  /** `IntPow`, its wrap-around included: zero for negative exponents, else the same power. */
  method IntPow(b: u64, e: int) returns (res: u64)
    ensures res == if e < 0 then 0 else PowWord(b, e)
  {
    if e < 0 { return 0; }
    var base, exp := b, e;
    res := 1;
    while exp > 0
      invariant exp >= 0 && Mul(res, PowWord(base, exp)) == PowWord(b, e)
      decreases exp
    {
      HalveExponent(base, exp);
      if exp % 2 == 1 {
        MulAssociates(res, base, PowWord(Mul(base, base), exp / 2));
        res := Mul(res, base);
      }
      base := Mul(base, base);
      exp := exp / 2;
    }
  }
}
