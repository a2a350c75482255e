/** 64-bit words as sets of bits: the operators that a bitmap needs, and what each does to the set. */
module Bits {
  import opened Machine

  const U64_BITS: nat := 64

  predicate Bit(x: nat, i: nat) {
    if i == 0 then x % 2 == 1 else Bit(x / 2, i - 1)
  }

  function And(x: nat, y: nat): nat {
    if x == 0 then 0 else (if x % 2 == 1 && y % 2 == 1 then 1 else 0) + 2 * And(x / 2, y / 2)
  }

  function Or(x: nat, y: nat): nat
    decreases x + y
  {
    if x == 0 && y == 0 then 0 else (if x % 2 == 1 || y % 2 == 1 then 1 else 0) + 2 * Or(x / 2, y / 2)
  }

  // The complement of a word of `width` bits.
  function Not(x: nat, width: nat): nat {
    if width == 0 then 0 else (1 - x % 2) + 2 * Not(x / 2, width - 1)
  }

  function TrailingZeros(x: nat): nat
    requires x > 0
  {
    if x % 2 == 1 then 0 else 1 + TrailingZeros(x / 2)
  }

  function Popcount(x: nat): nat {
    if x == 0 then 0 else x % 2 + Popcount(x / 2)
  }

  lemma {:induction false} ZeroHasNoBits(i: nat)
    ensures !Bit(0, i)
  {
    if i > 0 {
      ZeroHasNoBits(i - 1);
    }
  }

  lemma {:induction false} AndBit(x: nat, y: nat, i: nat)
    ensures Bit(And(x, y), i) <==> Bit(x, i) && Bit(y, i)
  {
    if x == 0 {
      ZeroHasNoBits(i);
    } else if i > 0 {
      AndBit(x / 2, y / 2, i - 1);
    }
  }

  lemma {:induction false} OrBit(x: nat, y: nat, i: nat)
    ensures Bit(Or(x, y), i) <==> Bit(x, i) || Bit(y, i)
  {
    if x == 0 && y == 0 {
      ZeroHasNoBits(i);
    } else if i > 0 {
      OrBit(x / 2, y / 2, i - 1);
    }
  }

  lemma {:induction false} NotBit(x: nat, width: nat, i: nat)
    ensures Bit(Not(x, width), i) <==> i < width && !Bit(x, i)
  {
    if width == 0 {
      ZeroHasNoBits(i);
    } else if i > 0 {
      NotBit(x / 2, width - 1, i - 1);
    }
  }

  lemma {:induction false} ShiftedOneBit(k: nat, i: nat)
    ensures Bit(Pow2(k), i) <==> i == k
  {
    if k == 0 {
      if i > 0 {
        ZeroHasNoBits(i - 1);
      }
    } else if i > 0 {
      ShiftedOneBit(k - 1, i - 1);
    }
  }

  lemma {:induction false} BelowPow2Bit(k: nat, i: nat)
    ensures Bit(Pow2(k) - 1, i) <==> i < k
  {
    if k == 0 {
      ZeroHasNoBits(i);
    } else {
      assert (Pow2(k) - 1) % 2 == 1 && (Pow2(k) - 1) / 2 == Pow2(k - 1) - 1;
      if i > 0 {
        BelowPow2Bit(k - 1, i - 1);
      }
    }
  }

  lemma {:induction false} TrailingZerosIsLeast(x: nat, i: nat)
    requires x > 0
    ensures Bit(x, TrailingZeros(x))
    ensures i < TrailingZeros(x) ==> !Bit(x, i)
  {
    if x % 2 == 0 {
      TrailingZerosIsLeast(x / 2, if i > 0 then i - 1 else 0);
    }
  }

  lemma NonzeroHasBit(x: nat) returns (i: nat)
    requires x > 0
    ensures Bit(x, i)
  {
    TrailingZerosIsLeast(x, 0);
    i := TrailingZeros(x);
  }

  lemma {:induction false} OrZero(x: nat)
    ensures Or(x, 0) == x
  {
    if x > 0 {
      OrZero(x / 2);
    }
  }

  // Setting a clear bit adds one to the population.
  lemma {:induction false} OrPopcount(x: nat, k: nat)
    requires !Bit(x, k)
    ensures Popcount(Or(x, Pow2(k))) == Popcount(x) + 1
  {
    if k == 0 {
      OrZero(x / 2);
    } else {
      OrPopcount(x / 2, k - 1);
    }
  }

  lemma AndParts(a: nat, r: nat, b: nat, t: nat)
    requires r < 2 && t < 2
    ensures And(2 * a + r, 2 * b + t) == (if r == 1 && t == 1 then 1 else 0) + 2 * And(a, b)
  {
    assert (2 * a + r) / 2 == a && (2 * a + r) % 2 == r;
    assert (2 * b + t) / 2 == b && (2 * b + t) % 2 == t;
  }

  lemma PopcountParts(a: nat, r: nat)
    requires r < 2
    ensures Popcount(2 * a + r) == r + Popcount(a)
  {
    assert (2 * a + r) / 2 == a && (2 * a + r) % 2 == r;
  }

  lemma NotParts(a: nat, r: nat, width: nat)
    requires r < 2
    ensures Not(2 * a + r, width + 1) == 2 * Not(a, width) + (1 - r)
  {
    assert (2 * a + r) / 2 == a && (2 * a + r) % 2 == r;
  }

  lemma {:induction false} AndAllOnes(x: nat, width: nat)
    requires x < Pow2(width)
    ensures And(x, Not(0, width)) == x
  {
    if x > 0 {
      AndAllOnes(x / 2, width - 1);
    }
  }

  // The low bit is cleared ...
  lemma AndNotLowBit(half: nat, width: nat)
    requires half < Pow2(width)
    ensures Popcount(And(2 * half + 1, Not(1, width + 1))) == Popcount(2 * half + 1) - 1
  {
    NotParts(0, 1, width);
    AndParts(half, 1, Not(0, width), 0);
    AndAllOnes(half, width);
    PopcountParts(half, 0);
    PopcountParts(half, 1);
  }

  // ... or a higher one, which leaves the low bit alone.
  lemma AndNotHighBit(half: nat, low: nat, k: nat, width: nat)
    requires low < 2
    ensures And(2 * half + low, Not(2 * Pow2(k), width + 1)) == 2 * And(half, Not(Pow2(k), width)) + low
  {
    NotParts(Pow2(k), 0, width);
    AndParts(half, low, Not(Pow2(k), width), 1);
  }

  lemma AndNotStep(half: nat, low: nat, k: nat, width: nat)
    requires low < 2 && Popcount(And(half, Not(Pow2(k), width))) == Popcount(half) - 1
    ensures Popcount(And(2 * half + low, Not(Pow2(k + 1), width + 1))) == Popcount(2 * half + low) - 1
  {
    AndNotHighBit(half, low, k, width);
    PopcountParts(And(half, Not(Pow2(k), width)), low);
    PopcountParts(half, low);
  }

  // Either way, clearing a set bit takes one away from the population.
  lemma {:induction false} AndNotPopcount(x: nat, k: nat, width: nat)
    requires Bit(x, k) && k < width && x < Pow2(width)
    ensures Popcount(And(x, Not(Pow2(k), width))) == Popcount(x) - 1
  {
    var half := x / 2;
    if k == 0 {
      AndNotLowBit(half, width - 1);
    } else {
      AndNotPopcount(half, k - 1, width - 1);
      AndNotStep(half, x % 2, k - 1, width - 1);
    }
  }

  // A word without high bits is small.
  lemma {:induction false} BitsBound(x: nat, width: nat)
    requires forall i: nat :: Bit(x, i) ==> i < width
    ensures x < Pow2(width)
  {
    if width == 0 {
      if x > 0 {
        var i := NonzeroHasBit(x);
      }
    } else {
      forall i: nat | Bit(x / 2, i)
        ensures i < width - 1
      {
        assert Bit(x, i + 1);
      }
      BitsBound(x / 2, width - 1);
    }
  }
}
