/**
  The register bit helpers of the firmware (BIT, BIT_IS_SET, BIT_IS_CLEAR)
  on 8-bit values, together with an unbounded-integer reading of "bit i"
  that the bit-vector helpers are proved against, and the mask operations
  the edge detector is described with.
 */
module Bits {

  /** A bit position inside an 8-bit register. */
  type BitIndex = i: nat | i < 8

  /** 2 to the power i, on unbounded integers. */
  function Pow2(i: nat): nat
  {
    if i == 0 then 1 else 2 * Pow2(i - 1)
  }

  /** Bit i of the binary expansion of v: the reference meaning of a bit test. */
  function Digit(v: nat, i: nat): bool
  {
    if i == 0 then v % 2 == 1 else Digit(v / 2, i - 1)
  }

  /**
    BIT(i): the value `1 << i`. The shift happens on a C int, but for a
    bit position below 8 the result always fits in the register.
   */
  function Bit(i: BitIndex): (r: bv8)
    ensures r != 0 && r & (r - 1) == 0
  {
    1 << i
  }

  /** BIT_IS_SET(x, i): `x & BIT(i)` is nonzero. */
  predicate IsSet(x: bv8, i: BitIndex)
  {
    x & Bit(i) != 0
  }

  /** BIT_IS_CLEAR(x, i): `x & BIT(i)` is zero, the negation of BIT_IS_SET. */
  predicate IsClear(x: bv8, i: BitIndex)
  {
    !IsSet(x, i)
  }

  /** Shifting right by one moves bit i down to bit i-1. */
  lemma ShiftMovesBit(x: bv8, i: BitIndex)
    requires i > 0
    ensures IsSet(x, i) <==> IsSet(x >> 1, i - 1)
  {
  }

  /** Shifting right by one halves the register's value. */
  lemma ShiftHalves(x: bv8)
    ensures (x >> 1) as int == x as int / 2
  {
  }

  /** The low bit is the parity of the register's value. */
  lemma LowBitIsParity(x: bv8)
    ensures IsSet(x, 0) <==> x as int % 2 == 1
  {
  }

  /** The bit tests agree with the binary expansion of the register's value. */
  lemma {:induction false} BitTestsMeanDigits(x: bv8, i: BitIndex)
    ensures IsSet(x, i) <==> Digit(x as int, i)
    ensures IsClear(x, i) <==> !Digit(x as int, i)
  {
    if i == 0 {
      LowBitIsParity(x);
    } else {
      ShiftMovesBit(x, i);
      BitTestsMeanDigits(x >> 1, i - 1);
      ShiftHalves(x);
    }
  }

  /** BIT(i) is 2 to the power i. */
  lemma {:induction false} BitValue(i: BitIndex)
    ensures Bit(i) as int == Pow2(i)
  {
    if i != 0 {
      BitValue(i - 1);
      assert Bit(i) == Bit(i - 1) << 1;
      assert (Bit(i - 1) << 1) as int == 2 * Bit(i - 1) as int;
    }
  }

  /** BIT(j) has exactly one bit set, namely bit j. */
  lemma BitIsSingleton(j: BitIndex, i: BitIndex)
    ensures IsSet(Bit(j), i) <==> i == j
  {
  }

  /** Bitwise and keeps exactly the bits set in both registers. */
  lemma AndBits(x: bv8, y: bv8, i: BitIndex)
    ensures IsSet(x & y, i) <==> IsSet(x, i) && IsSet(y, i)
  {
  }

  /** Bitwise or keeps exactly the bits set in either register. */
  lemma OrBits(x: bv8, y: bv8, i: BitIndex)
    ensures IsSet(x | y, i) <==> IsSet(x, i) || IsSet(y, i)
  {
  }

  /** Exclusive or keeps exactly the bits on which the registers differ. */
  lemma XorBits(x: bv8, y: bv8, i: BitIndex)
    ensures IsSet(x ^ y, i) <==> IsSet(x, i) != IsSet(y, i)
  {
    var b := Bit(i);
    assert (x ^ y) & b == (x & b) ^ (y & b);
  }

  /** Complement flips every bit. */
  lemma NotBits(x: bv8, i: BitIndex)
    ensures IsSet(!x, i) <==> !IsSet(x, i)
  {
  }

  /** Two registers that agree on every bit are equal. */
  lemma {:induction false} Extensionality(a: bv8, b: bv8)
    requires forall i: BitIndex :: IsSet(a, i) == IsSet(b, i)
    ensures a == b
  {
    var d := a ^ b;
    assert d & 1 == 0 by { assert IsSet(a, 0) == IsSet(b, 0); }
    assert d & 2 == 0 by { assert IsSet(a, 1) == IsSet(b, 1); }
    assert d & 4 == 0 by { assert IsSet(a, 2) == IsSet(b, 2); }
    assert d & 8 == 0 by { assert IsSet(a, 3) == IsSet(b, 3); }
    assert d & 16 == 0 by { assert IsSet(a, 4) == IsSet(b, 4); }
    assert d & 32 == 0 by { assert IsSet(a, 5) == IsSet(b, 5); }
    assert d & 64 == 0 by { assert IsSet(a, 6) == IsSet(b, 6); }
    assert d & 128 == 0 by { assert IsSet(a, 7) == IsSet(b, 7); }
  }

  /** The register x with bit j set and every other bit kept. */
  function SetBit(x: bv8, j: BitIndex): (r: bv8)
    ensures forall i: BitIndex :: IsSet(r, i) <==> IsSet(x, i) || i == j
  {
    var r := x | Bit(j);
    assert forall i: BitIndex :: IsSet(r, i) <==> IsSet(x, i) || i == j by {
      forall i: BitIndex
        ensures IsSet(r, i) <==> IsSet(x, i) || i == j
      {
        OrBits(x, Bit(j), i);
        BitIsSingleton(j, i);
      }
    }
    r
  }

  /** The register x with bit j cleared and every other bit kept. */
  function ClearBit(x: bv8, j: BitIndex): (r: bv8)
    ensures forall i: BitIndex :: IsSet(r, i) <==> IsSet(x, i) && i != j
  {
    var r := x & !Bit(j);
    assert forall i: BitIndex :: IsSet(r, i) <==> IsSet(x, i) && i != j by {
      forall i: BitIndex
        ensures IsSet(r, i) <==> IsSet(x, i) && i != j
      {
        AndBits(x, !Bit(j), i);
        NotBits(Bit(j), i);
        BitIsSingleton(j, i);
      }
    }
    r
  }

  /** The mask of the first n columns: bits 0 .. n-1 set, the others clear. */
  function LowBits(n: nat): (r: bv8)
    requires n <= 8
    ensures forall i: BitIndex :: IsSet(r, i) <==> i < n
  {
    if n == 0 then 0
    else SetBit(LowBits(n - 1), n - 1)
  }

  /** `x & ~y`: the bits set in x and clear in y (for masks, a rising edge). */
  function Rising(x: bv8, y: bv8): (r: bv8)
    ensures forall i: BitIndex :: IsSet(r, i) <==> IsSet(x, i) && IsClear(y, i)
  {
    var r := x & !y;
    assert forall i: BitIndex :: IsSet(r, i) <==> IsSet(x, i) && IsClear(y, i) by {
      forall i: BitIndex
        ensures IsSet(r, i) <==> IsSet(x, i) && IsClear(y, i)
      {
        AndBits(x, !y, i);
        NotBits(y, i);
      }
    }
    r
  }

  /** `x ^ y`: the bits on which x and y differ. */
  function Changed(x: bv8, y: bv8): (r: bv8)
    ensures forall i: BitIndex :: IsSet(r, i) <==> IsSet(x, i) != IsSet(y, i)
  {
    var r := x ^ y;
    assert forall i: BitIndex :: IsSet(r, i) <==> IsSet(x, i) != IsSet(y, i) by {
      forall i: BitIndex
        ensures IsSet(r, i) <==> IsSet(x, i) != IsSet(y, i)
      {
        XorBits(x, y, i);
      }
    }
    r
  }

  /** `x & mask(n)`: x cut down to its first n bits. */
  function Masked(x: bv8, n: nat): (r: bv8)
    requires n <= 8
    ensures forall i: BitIndex :: IsSet(r, i) <==> IsSet(x, i) && i < n
  {
    var low := LowBits(n);
    var r := x & low;
    assert forall i: BitIndex :: IsSet(r, i) <==> IsSet(x, i) && i < n by {
      forall i: BitIndex
        ensures IsSet(r, i) <==> IsSet(x, i) && i < n
      {
        AndBits(x, low, i);
      }
    }
    r
  }

  /** The first n bits of x and the remaining bits of y, built one bit at a time. */
  function Blend(x: bv8, y: bv8, n: nat): (r: bv8)
    requires n <= 8
    ensures forall i: BitIndex :: IsSet(r, i) == if i < n then IsSet(x, i) else IsSet(y, i)
  {
    if n == 0 then y
    else
      var below := Blend(x, y, n - 1);
      if IsSet(x, n - 1) then SetBit(below, n - 1) else ClearBit(below, n - 1)
  }

  /** Blending over all eight bits keeps x whole. */
  lemma BlendAll(x: bv8, y: bv8)
    ensures Blend(x, y, 8) == x
  {
    var r := Blend(x, y, 8);
    forall i: BitIndex
      ensures IsSet(r, i) == IsSet(x, i)
    {
    }
    Extensionality(r, x);
  }

  /** The number of set bits of x among its first k positions. */
  function CountBelow(x: bv8, k: nat): nat
    requires k <= 8
  {
    if k == 0 then 0
    else CountBelow(x, k - 1) + (if IsSet(x, k - 1) then 1 else 0)
  }
}
