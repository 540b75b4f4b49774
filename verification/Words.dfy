/** Machine words of the Acu VM as bounded integers: wrapping arithmetic, the signed view of
    a 64-bit word, truncating division and the bitwise operations, with the algebraic laws
    that the code generator and the optimiser rely on. */
module Words {
  const TWO_63: int := 0x8000_0000_0000_0000
  const TWO_64: int := 0x1_0000_0000_0000_0000
  const ALL_ONES: u64 := 0xFFFF_FFFF_FFFF_FFFF

  type u8 = x: int | 0 <= x < 0x100
  type u16 = x: int | 0 <= x < 0x1_0000
  type u32 = x: int | 0 <= x < 0x1_0000_0000
  type u64 = x: int | 0 <= x < TWO_64

  datatype Option<+T> = None | Some(value: T)

  // ---- modular and signed views -------------------------------------------------------

  /** The word that represents `i` modulo 2^64. */
  function Wrap(i: int): u64 {
    i % TWO_64
  }

  /** The two's complement reading of a word. */
  function Signed(x: u64): int {
    if x < TWO_63 then x else x - TWO_64
  }

  function SignExtend8(x: u8): int {
    if x < 0x80 then x else x - 0x100
  }

  function SignExtend16(x: u16): int {
    if x < 0x8000 then x else x - 0x1_0000
  }

  lemma WrapIdentity(x: u64)
    ensures Wrap(x) == x
  {
  }

  lemma WrapUnique(i: int, k: int, x: u64)
    requires i == x + k * TWO_64
    ensures Wrap(i) == x
  {
  }

  lemma WrapCongruent(i: int, j: int, k: int)
    requires i == j + k * TWO_64
    ensures Wrap(i) == Wrap(j)
  {
    WrapUnique(i, k + j / TWO_64, Wrap(j));
  }

  lemma WrapDiffers(i: int, d: int, k: int)
    requires 0 < d < TWO_64
    ensures Wrap(i + d + k * TWO_64) != Wrap(i)
  {
    WrapCongruent(i + d + k * TWO_64, i + d, k);
  }

  lemma WrapSigned(x: u64)
    ensures Wrap(Signed(x)) == x
  {
  }

  lemma SignedWrap(i: int)
    requires -TWO_63 <= i < TWO_63
    ensures Signed(Wrap(i)) == i
  {
    if i < 0 {
      WrapUnique(i, -1, i + TWO_64);
    }
  }

  lemma SignedInjective(x: u64, y: u64)
    ensures (Signed(x) == Signed(y)) == (x == y)
  {
  }

  // ---- arithmetic ---------------------------------------------------------------------

  function Add(x: u64, y: u64): u64 { Wrap(x + y) }

  function Sub(x: u64, y: u64): u64 { Wrap(x - y) }

  function Neg(x: u64): u64 { Wrap(0 - x) }

  function Mul(x: u64, y: u64): u64 { Wrap(x * y) }

  function Abs(i: int): nat { if i < 0 then -i else i }

  /** Signed division as C defines it: the quotient is truncated toward zero. */
  function TruncDiv(a: int, b: int): int
    requires b != 0
  {
    if (a < 0) == (b < 0) then Abs(a) / Abs(b) else -(Abs(a) / Abs(b))
  }

  /** The remainder that goes with `TruncDiv`; it has the sign of the dividend. */
  function TruncRem(a: int, b: int): int
    requires b != 0
  {
    if a < 0 then -(Abs(a) % Abs(b)) else Abs(a) % Abs(b)
  }

  /** `TruncDiv` and `TruncRem` are the unique pair that C requires: they recompose the
      dividend, the remainder is smaller than the divisor and never has the opposite sign. */
  lemma TruncDivRem(a: int, b: int)
    requires b != 0
    ensures a == TruncDiv(a, b) * b + TruncRem(a, b)
    ensures Abs(TruncRem(a, b)) < Abs(b)
    ensures TruncRem(a, b) == 0 || (TruncRem(a, b) < 0) == (a < 0)
  {
    var q, r := Abs(a) / Abs(b), Abs(a) % Abs(b);
    assert Abs(a) == q * Abs(b) + r;
    if a < 0 {
      if b < 0 { assert q * b == -(q * Abs(b)); } else { assert (-q) * b == -(q * Abs(b)); }
    } else {
      if b < 0 { assert (-q) * b == q * Abs(b); } else { assert q * b == q * Abs(b); }
    }
  }

  lemma MulCommutes(x: u64, y: u64)
    ensures Mul(x, y) == Mul(y, x)
  {
    assert x * y == y * x;
  }

  lemma MulMinusOne(x: u64)
    ensures Mul(x, ALL_ONES) == Neg(x)
  {
    assert x * ALL_ONES == 0 - x + x * TWO_64;
    WrapCongruent(x * ALL_ONES, 0 - x, x);
  }

  /** Multiplication sees its second operand only modulo 2^64, so a sign-extended immediate
      multiplies like the word it represents. */
  lemma MulSigned(x: u64, i: int, j: int)
    ensures Wrap(x * i) == Mul(x, Wrap(i))
    ensures Wrap(Signed(x) * j) == Wrap(x * j)
  {
    var k := i / TWO_64;
    assert i == Wrap(i) + k * TWO_64;
    assert x * i == x * Wrap(i) + (x * k) * TWO_64 by {
      assert x * (Wrap(i) + k * TWO_64) == x * Wrap(i) + x * (k * TWO_64);
      assert x * (k * TWO_64) == (x * k) * TWO_64;
    }
    WrapCongruent(x * i, x * Wrap(i), x * k);
    if x >= TWO_63 {
      assert (x - TWO_64) * j == x * j + (-j) * TWO_64;
      WrapCongruent(Signed(x) * j, x * j, -j);
    }
  }

  lemma AddSigned(x: u64, i: int)
    ensures Wrap(Signed(x) + i) == Add(x, Wrap(i))
  {
  }

  lemma SubSigned(x: u64, i: int)
    ensures Wrap(Signed(x) - i) == Sub(x, Wrap(i))
  {
  }

  lemma SubFromSigned(i: int, x: u64)
    ensures Wrap(i - Signed(x)) == Sub(Wrap(i), x)
  {
  }

  // ---- powers of two, shifts ----------------------------------------------------------

  function Pow2(k: nat): (p: nat)
    ensures p >= 1
  {
    if k == 0 then 1 else 2 * Pow2(k - 1)
  }

  lemma {:induction false} Pow2Add(a: nat, b: nat)
    ensures Pow2(a + b) == Pow2(a) * Pow2(b)
  {
    if a > 0 {
      Pow2Add(a - 1, b);
      assert 2 * (Pow2(a - 1) * Pow2(b)) == (2 * Pow2(a - 1)) * Pow2(b);
    }
  }

  lemma Pow2Values()
    ensures Pow2(8) == 0x100 && Pow2(63) == TWO_63 && Pow2(64) == TWO_64
  {
    assert Pow2(8) == 0x100;
    assert Pow2(16) == 0x1_0000 by { Pow2Add(8, 8); }
    assert Pow2(32) == 0x1_0000_0000 by { Pow2Add(16, 16); }
    assert Pow2(64) == TWO_64 by { Pow2Add(32, 32); }
  }

  lemma {:induction false} Pow2Monotone(a: nat, b: nat)
    requires a <= b
    ensures Pow2(a) <= Pow2(b)
  {
    if a < b {
      Pow2Monotone(a, b - 1);
    }
  }

  function Shl(x: u64, k: nat): u64 { Wrap(x * Pow2(k)) }

  function ShrU(x: u64, k: nat): (r: u64)
    ensures r <= x
  {
    ShrinksDiv(x, Pow2(k));
    x / Pow2(k)
  }

  lemma ShrinksDiv(x: nat, p: nat)
    requires p >= 1
    ensures 0 <= x / p <= x
  {
    assert x == (x / p) * p + x % p;
    assert (x / p) * p >= x / p;
  }

  /** Arithmetic right shift: the floor of the signed value divided by 2^k. */
  function ShrS(x: u64, k: nat): u64 { Wrap(Signed(x) / Pow2(k)) }

  // ---- bitwise operations -------------------------------------------------------------

  function BitAnd(x: nat, y: nat): (r: nat)
    ensures r <= x && r <= y
  {
    if x == 0 || y == 0 then 0
    else (if x % 2 == 1 && y % 2 == 1 then 1 else 0) + 2 * BitAnd(x / 2, y / 2)
  }

  function BitOr(x: nat, y: nat): (r: nat)
    ensures r <= x + y
  {
    if x == 0 then y else if y == 0 then x
    else (if x % 2 == 1 || y % 2 == 1 then 1 else 0) + 2 * BitOr(x / 2, y / 2)
  }

  function BitXor(x: nat, y: nat): (r: nat)
    ensures r <= x + y
  {
    if x == 0 then y else if y == 0 then x
    else (if x % 2 != y % 2 then 1 else 0) + 2 * BitXor(x / 2, y / 2)
  }

  lemma {:induction false} BitBounds(x: nat, y: nat, k: nat)
    requires x < Pow2(k) && y < Pow2(k)
    ensures BitOr(x, y) < Pow2(k) && BitXor(x, y) < Pow2(k)
  {
    if x != 0 && y != 0 {
      BitBounds(x / 2, y / 2, k - 1);
    }
  }

  function And(x: u64, y: u64): u64 { BitAnd(x, y) }

  function Or(x: u64, y: u64): u64 {
    Pow2Values(); BitBounds(x, y, 64);
    BitOr(x, y)
  }

  function Xor(x: u64, y: u64): u64 {
    Pow2Values(); BitBounds(x, y, 64);
    BitXor(x, y)
  }

  function Not(x: u64): u64 { ALL_ONES - x }

  lemma {:induction false} BitCommutes(x: nat, y: nat)
    ensures BitAnd(x, y) == BitAnd(y, x)
    ensures BitOr(x, y) == BitOr(y, x)
    ensures BitXor(x, y) == BitXor(y, x)
  {
    if x != 0 && y != 0 {
      BitCommutes(x / 2, y / 2);
    }
  }

  lemma {:induction false} BitSelf(x: nat)
    ensures BitAnd(x, x) == x && BitOr(x, x) == x && BitXor(x, x) == 0
  {
    if x != 0 {
      BitSelf(x / 2);
    }
  }

  /** The low k bits, bit by bit. */
  function LowBits(x: nat, k: nat): nat {
    if k == 0 then 0 else x % 2 + 2 * LowBits(x / 2, k - 1)
  }

  lemma {:induction false} LowBitsMod(x: nat, k: nat)
    ensures LowBits(x, k) == x % Pow2(k)
  {
    if k != 0 {
      LowBitsMod(x / 2, k - 1);
      HalvingMod(x, Pow2(k - 1));
    }
  }

  lemma {:induction false} AndMask(x: nat, k: nat)
    ensures BitAnd(x, Pow2(k) - 1) == LowBits(x, k)
  {
    if k != 0 {
      var p := Pow2(k - 1);
      AndMask(x / 2, k - 1);
      assert (2 * p - 1) / 2 == p - 1 && (2 * p - 1) % 2 == 1;
      if x == 0 { LowBitsMod(0, k); }
    }
  }

  /** A mask of k ones keeps the low k bits. */
  lemma BitMask(x: nat, k: nat)
    ensures BitAnd(x, Pow2(k) - 1) == x % Pow2(k)
  {
    AndMask(x, k);
    LowBitsMod(x, k);
  }

  /** XOR with a mask of ones complements the bits under it. */
  lemma {:induction false} XorMask(x: nat, k: nat)
    requires x < Pow2(k)
    ensures BitXor(x, Pow2(k) - 1) == Pow2(k) - 1 - x
  {
    if k != 0 && x != 0 {
      var p := Pow2(k - 1);
      XorMask(x / 2, k - 1);
      DivModUnique(2 * p - 1, 2, p - 1, 1);
    }
  }

  lemma HalvingMod(x: nat, p: nat)
    requires p >= 1
    ensures x % (2 * p) == 2 * (x / 2 % p) + x % 2
  {
    var q, r := x / 2 / p, x / 2 % p;
    assert x == 2 * (q * p + r) + x % 2;
    assert x == q * (2 * p) + (2 * r + x % 2);
    assert 0 <= 2 * r + x % 2 < 2 * p;
    DivModUnique(x, 2 * p, q, 2 * r + x % 2);
  }

  lemma DivModUnique(x: int, d: int, q: int, r: int)
    requires d > 0 && x == q * d + r && 0 <= r < d
    ensures x / d == q && x % d == r
  {
    var e := x / d - q;
    assert x == (x / d) * d + x % d;
    assert e * d == (x / d) * d - q * d;
    assert e >= 1 ==> e * d >= d;
    assert e <= -1 ==> e * d <= -d;
  }

  lemma AndAllOnes(x: u64)
    ensures And(x, ALL_ONES) == x
  {
    Pow2Values();
    BitMask(x, 64);
    WrapIdentity(x);
  }

  lemma XorAllOnes(x: u64)
    ensures Xor(x, ALL_ONES) == Not(x)
  {
    Pow2Values();
    XorMask(x, 64);
  }

  // ---- strength reductions by powers of two ---------------------------------------------

  /** A power of two that is a word has an exponent below 64. */
  predicate IsPowerOfTwo(v: u64) {
    v > 0 && And(v, v - 1) == 0
  }

  function TrailingZeros(v: nat): (k: nat)
    requires v > 0
  {
    if v % 2 == 1 then 0 else 1 + TrailingZeros(v / 2)
  }

  /** `x & (x - 1) == 0` recognises exactly the powers of two, and counting trailing zeros
      gives the exponent. */
  lemma {:induction false} PowerOfTwoTest(v: nat)
    requires v > 0
    ensures BitAnd(v, v - 1) == 0 <==> v == Pow2(TrailingZeros(v))
  {
    if v % 2 == 1 {
      if v > 1 {
        BitSelf(v / 2);
        assert (v - 1) / 2 == v / 2;
      }
    } else {
      PowerOfTwoTest(v / 2);
      assert (v - 1) / 2 == v / 2 - 1;
    }
  }

  lemma LogBelow64(v: u64)
    requires IsPowerOfTwo(v)
    ensures v == Pow2(TrailingZeros(v)) && TrailingZeros(v) < 64
  {
    PowerOfTwoTest(v);
    if TrailingZeros(v) >= 64 {
      Pow2Values();
      Pow2Monotone(64, TrailingZeros(v));
    }
  }

  lemma MulIsShift(x: u64, v: u64)
    requires IsPowerOfTwo(v)
    ensures Mul(x, v) == Shl(x, TrailingZeros(v)) && TrailingZeros(v) < 64
  {
    LogBelow64(v);
  }

  /** The unsigned rewrites are exact for every word: multiplying, dividing and taking the
      remainder by a power of two are a shift left, a shift right and a mask. */
  lemma PowerOfTwoReductions(x: u64, v: u64)
    requires IsPowerOfTwo(v)
    ensures Mul(x, v) == Shl(x, TrailingZeros(v))
    ensures x / v == ShrU(x, TrailingZeros(v))
    ensures x % v == And(x, v - 1)
  {
    MulIsShift(x, v);
    LogBelow64(v);
    BitMask(x, TrailingZeros(v));
  }

  // ---- integer power ------------------------------------------------------------------

  function Pow(b: int, e: nat): int {
    if e == 0 then 1 else b * Pow(b, e - 1)
  }

  /** The word that `x ** e` denotes. */
  function PowWord(x: u64, e: nat): u64 { Wrap(Pow(x, e)) }

  lemma {:induction false} PowAdd(b: int, m: nat, n: nat)
    ensures Pow(b, m + n) == Pow(b, m) * Pow(b, n)
  {
    if m > 0 {
      PowAdd(b, m - 1, n);
      assert b * (Pow(b, m - 1) * Pow(b, n)) == (b * Pow(b, m - 1)) * Pow(b, n);
    }
  }

  lemma PowSmall(b: int)
    ensures Pow(b, 0) == 1 && Pow(b, 1) == b && Pow(b, 2) == b * b
  {
    assert Pow(b, 1) == b * Pow(b, 0);
    assert Pow(b, 2) == b * Pow(b, 1);
  }

  lemma {:induction false} PowSquare(b: int, n: nat)
    ensures Pow(b * b, n) == Pow(b, 2 * n)
  {
    if n > 0 {
      PowSquare(b, n - 1);
      assert b * b * Pow(b, 2 * n - 2) == b * (b * Pow(b, 2 * n - 2));
    }
  }

  lemma WrapMul(i: int, j: int)
    ensures Wrap(i * j) == Wrap(Wrap(i) * j)
    ensures Wrap(i * j) == Wrap(i * Wrap(j))
  {
    WrapMulLeft(i, j);
    WrapMulLeft(j, i);
    assert i * j == j * i && Wrap(j) * i == i * Wrap(j);
  }

  lemma WrapMulLeft(i: int, j: int)
    ensures Wrap(i * j) == Wrap(Wrap(i) * j)
  {
    var k := i / TWO_64;
    assert i == Wrap(i) + k * TWO_64;
    assert i * j == Wrap(i) * j + (k * j) * TWO_64 by {
      assert (Wrap(i) + k * TWO_64) * j == Wrap(i) * j + k * TWO_64 * j;
      assert k * TWO_64 * j == (k * j) * TWO_64;
    }
    WrapCongruent(i * j, Wrap(i) * j, k * j);
  }

  /** Only the base modulo 2^64 matters for a power modulo 2^64. */
  lemma {:induction false} PowCongruent(b: int, e: nat)
    ensures Wrap(Pow(b, e)) == Wrap(Pow(Wrap(b), e))
  {
    if e > 0 {
      var p, q := Pow(b, e - 1), Pow(Wrap(b), e - 1);
      PowCongruent(b, e - 1);
      WrapMul(b, p);
      WrapMul(Wrap(b), q);
      WrapMul(Wrap(b), p);
    }
  }
}
