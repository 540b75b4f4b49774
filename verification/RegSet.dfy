/** The register set of the code generator as it is stored: 256 bits in four words, searched with bit
    tricks. Every operation is the set operation it stands for. */
module RegSet {
  import opened Words

  // ---- single bits ----------------------------------------------------------------------------------

  predicate Bit(x: nat, k: nat)
    decreases k
  {
    if k == 0 then x % 2 == 1 else Bit(x / 2, k - 1)
  }

  lemma {:induction false} OrBit(x: nat, y: nat, k: nat)
    ensures Bit(BitOr(x, y), k) == (Bit(x, k) || Bit(y, k))
    decreases k
  {
    if x == 0 { ZeroBit(k); }
    if y == 0 { ZeroBit(k); }
    if k > 0 && x != 0 && y != 0 {
      OrBit(x / 2, y / 2, k - 1);
    }
  }

  lemma {:induction false} AndBit(x: nat, y: nat, k: nat)
    ensures Bit(BitAnd(x, y), k) == (Bit(x, k) && Bit(y, k))
    decreases k
  {
    ZeroBit(k);
    if k > 0 && x != 0 && y != 0 {
      AndBit(x / 2, y / 2, k - 1);
    }
  }

  lemma {:induction false} ZeroBit(k: nat)
    ensures !Bit(0, k)
  {
    if k > 0 { ZeroBit(k - 1); }
  }

  lemma {:induction false} PowerBit(n: nat, k: nat)
    ensures Bit(Pow2(n), k) == (k == n)
  {
    if n == 0 {
      if k > 0 { ZeroBit(k - 1); }
    } else if k > 0 {
      PowerBit(n - 1, k - 1);
    }
  }

  /** Complementing `n` bits flips each of them. */
  lemma {:induction false} ComplementBit(x: nat, n: nat, k: nat)
    requires x < Pow2(n) && k < n
    ensures Bit(Pow2(n) - 1 - x, k) == !Bit(x, k)
    decreases n
  {
    var p := Pow2(n - 1);
    assert (2 * p - 1 - x) / 2 == p - 1 - x / 2;
    if k > 0 {
      ComplementBit(x / 2, n - 1, k - 1);
    }
  }

  lemma NotBit(x: u64, k: nat)
    requires k < 64
    ensures Bit(Not(x), k) == !Bit(x, k)
  {
    Pow2Values();
    ComplementBit(x, 64, k);
  }

  /** Counting trailing zeros finds the lowest set bit. */
  lemma {:induction false} LowestBit(v: nat)
    requires v > 0
    ensures Bit(v, TrailingZeros(v)) && forall j :: 0 <= j < TrailingZeros(v) ==> !Bit(v, j)
  {
    if v % 2 == 0 {
      LowestBit(v / 2);
      forall j | 0 <= j < TrailingZeros(v) ensures !Bit(v, j) {
        if j > 0 { assert !Bit(v / 2, j - 1); }
      }
    }
  }

  /** `63 - __builtin_clzll(v)`. */
  function HighestBit(v: nat): nat
    requires v > 0
  {
    if v == 1 then 0 else 1 + HighestBit(v / 2)
  }

  lemma {:induction false} HighestBitIs(v: nat)
    requires v > 0
    ensures Bit(v, HighestBit(v)) && forall j :: j > HighestBit(v) ==> !Bit(v, j)
  {
    if v > 1 {
      HighestBitIs(v / 2);
      forall j | j > HighestBit(v) ensures !Bit(v, j) {
        assert !Bit(v / 2, j - 1);
      }
    } else {
      forall j | j > 0 ensures !Bit(1, j) { ZeroBit(j - 1); }
    }
  }

  lemma {:induction false} BitBelow(v: nat, n: nat, k: nat)
    requires v < Pow2(n) && Bit(v, k)
    ensures k < n
    decreases k
  {
    if n == 0 {
      ZeroBit(k);
    } else if k > 0 {
      BitBelow(v / 2, n - 1, k - 1);
    }
  }

  lemma WordBit(v: u64, k: nat)
    requires Bit(v, k)
    ensures k < 64
  {
    Pow2Values();
    BitBelow(v, 64, k);
  }

  lemma ShlOne(k: nat)
    requires k < 64
    ensures Shl(1, k) == Pow2(k)
  {
    Pow2Values();
    Pow2Monotone(k, 63);
  }

  // ---- the set --------------------------------------------------------------------------------------

  class RegSet {
    const bits: array<u64>

    ghost predicate Valid()
      reads this, bits
    {
      bits.Length == 4
    }

    /** The registers marked used. */
    ghost function Contents(): set<u8>
      requires Valid()
      reads this, bits
    {
      set r: u8 | 0 <= r < 0x100 && Bit(bits[r / 64], r % 64)
    }

    constructor ()
      ensures Valid() && fresh(bits) && Contents() == {}
    {
      bits := new u64[4](_ => 0);
      new;
      forall r: u8 ensures r !in Contents() { ZeroBit(r % 64); }
    }

    /** `AcuRegSet_MarkUsed`. */
    method MarkUsed(r: u8)
      requires Valid()
      modifies bits
      ensures Valid() && Contents() == old(Contents()) + {r}
    {
      hide Bit;
      ghost var word := bits[r / 64];
      bits[r / 64] := Or(bits[r / 64], Shl(1, r % 64));
      ShlOne(r % 64);
      forall q: u8 ensures q in Contents() <==> q in old(Contents()) || q == r {
        OrBit(word, Pow2(r % 64), q % 64);
        PowerBit(r % 64, q % 64);
        SameRegister(q, r);
      }
    }

    /** `AcuRegSet_Free`. */
    method Free(r: u8)
      requires Valid()
      modifies bits
      ensures Valid() && Contents() == old(Contents()) - {r}
    {
      hide Bit;
      ghost var word := bits[r / 64];
      bits[r / 64] := And(bits[r / 64], Not(Shl(1, r % 64)));
      ShlOne(r % 64);
      forall q: u8 ensures q in Contents() <==> q in old(Contents()) && q != r {
        AndBit(word, Not(Pow2(r % 64)), q % 64);
        NotBit(Pow2(r % 64), q % 64);
        PowerBit(r % 64, q % 64);
        SameRegister(q, r);
      }
    }

    /** `AcuRegSet_Alloc`: marks and returns the lowest free register; a full set is left alone and
        yields 0, which is in use. */
    method Alloc() returns (r: u8)
      requires Valid()
      modifies bits
      ensures Valid() && Contents() == old(Contents()) + {r}
      ensures forall q: u8 :: q < r ==> q in old(Contents())
      ensures r in old(Contents()) <==> forall q: u8 :: q in old(Contents())
      ensures r in old(Contents()) ==> r == 0
    {
      hide Bit;
      for i := 0 to 4
        invariant bits[..] == old(bits[..])
        invariant forall q: u8 :: q < 64 * i ==> q in old(Contents())
      {
        ghost var word := bits[i];
        NotBitAll(word);
        if Not(bits[i]) != 0 {
          var bit := TrailingZeros(Not(bits[i]));
          LowestBit(Not(word));
          WordBit(Not(word), bit);
          NotBit(word, bit);
          r := i * 64 + bit;
          MarkUsed(r);
          forall q: u8 | q < r ensures q in old(Contents()) {
            if q >= 64 * i {
              NotBit(word, q % 64);
            }
          }
          return;
        }
      }
      r := 0;
    }

    /** `AcuRegSet_GetHighestUsed`: the highest register in use, or -1. */
    method GetHighestUsed() returns (highest: int)
      requires Valid()
      ensures -1 <= highest < 256 && (highest >= 0 ==> highest in Contents())
      ensures forall q: u8 :: q in Contents() ==> q <= highest
    {
      hide Bit;
      var i := 3;
      while i >= 0
        invariant -1 <= i <= 3 && forall q: u8 :: q in Contents() ==> q < 64 * (i + 1)
      {
        if bits[i] != 0 {
          HighestBitIs(bits[i]);
          WordBit(bits[i], HighestBit(bits[i]));
          highest := i * 64 + HighestBit(bits[i]);
          return;
        }
        forall q: u8 | q in Contents() ensures q < 64 * i {
          ZeroBit(q % 64);
        }
        i := i - 1;
      }
      highest := -1;
    }
  }

  /** A full word has every bit set. */
  lemma NotBitAll(word: u64)
    ensures Not(word) == 0 ==> forall k :: 0 <= k < 64 ==> Bit(word, k)
  {
    if Not(word) == 0 {
      forall k | 0 <= k < 64 ensures Bit(word, k) {
        NotBit(word, k);
        ZeroBit(k);
      }
    }
  }

  lemma SameRegister(q: u8, r: u8)
    ensures q == r <==> q / 64 == r / 64 && q % 64 == r % 64
  {
  }
}
