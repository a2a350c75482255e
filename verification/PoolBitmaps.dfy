/** The 64-bit bitmap of a reply pool, as a set of slot offsets (ipc.rs). */
module PoolBitmaps {
  import opened Machine
  import opened Bits

  const MAX_DEFERRED_REPLIES: nat := 64

  // The low `count` bits. A 64-bit one cannot be shifted by 64, so that case stands apart.
  function LowBits(count: nat): nat
    requires count <= U64_BITS
  {
    if count == U64_BITS then Pow2(U64_BITS) - 1 else Pow2(count) - 1
  }

  // The least clear bit below `capacity`, if there is one.
  function FreeOffset(occupied: nat, capacity: nat): Option<nat>
    requires capacity <= U64_BITS
  {
    var available := And(Not(occupied, U64_BITS), LowBits(capacity));
    if available == 0 then None else Some(TrailingZeros(available))
  }

  function WithBit(occupied: nat, offset: nat): nat {
    Or(occupied, Pow2(offset))
  }

  function WithoutBit(occupied: nat, offset: nat): nat {
    And(occupied, Not(Pow2(offset), U64_BITS))
  }

  ghost predicate BitsBelow(occupied: nat, capacity: nat) {
    forall i: nat :: Bit(occupied, i) ==> i < capacity
  }

  // The search finds the least clear bit, and finds none exactly when all are set.
  lemma FreeOffsetIsLeast(occupied: nat, capacity: nat)
    requires capacity <= U64_BITS
    ensures FreeOffset(occupied, capacity) == None ==> forall i: nat :: i < capacity ==> Bit(occupied, i)
    ensures FreeOffset(occupied, capacity).Some? ==>
              var o := FreeOffset(occupied, capacity).value;
              o < capacity && !Bit(occupied, o) && forall i: nat :: i < o ==> Bit(occupied, i)
  {
    var available := And(Not(occupied, U64_BITS), LowBits(capacity));
    forall i: nat
      ensures Bit(available, i) <==> i < capacity && !Bit(occupied, i)
    {
      AndBit(Not(occupied, U64_BITS), LowBits(capacity), i);
      NotBit(occupied, U64_BITS, i);
      BelowPow2Bit(capacity, i);
    }
    if available == 0 {
      forall i: nat | i < capacity
        ensures Bit(occupied, i)
      {
        ZeroHasNoBits(i);
        assert !Bit(available, i);
      }
    } else {
      forall i: nat
        ensures Bit(available, TrailingZeros(available))
        ensures i < TrailingZeros(available) ==> !Bit(available, i)
      {
        TrailingZerosIsLeast(available, i);
      }
      assert !Bit(occupied, TrailingZeros(available));
    }
  }

  lemma WithBitSets(occupied: nat, offset: nat)
    ensures forall i: nat :: Bit(WithBit(occupied, offset), i) <==> Bit(occupied, i) || i == offset
    ensures !Bit(occupied, offset) ==> Popcount(WithBit(occupied, offset)) == Popcount(occupied) + 1
  {
    forall i: nat
      ensures Bit(WithBit(occupied, offset), i) <==> Bit(occupied, i) || i == offset
    {
      OrBit(occupied, Pow2(offset), i);
      ShiftedOneBit(offset, i);
    }
    if !Bit(occupied, offset) {
      OrPopcount(occupied, offset);
    }
  }

  lemma WithoutBitClears(occupied: nat, offset: nat)
    requires BitsBelow(occupied, U64_BITS) && offset < U64_BITS
    ensures forall i: nat :: Bit(WithoutBit(occupied, offset), i) <==> Bit(occupied, i) && i != offset
    ensures Bit(occupied, offset) ==> Popcount(WithoutBit(occupied, offset)) == Popcount(occupied) - 1
  {
    forall i: nat
      ensures Bit(WithoutBit(occupied, offset), i) <==> Bit(occupied, i) && i != offset
    {
      AndBit(occupied, Not(Pow2(offset), U64_BITS), i);
      NotBit(Pow2(offset), U64_BITS, i);
      ShiftedOneBit(offset, i);
    }
    BitsBound(occupied, U64_BITS);
    if Bit(occupied, offset) {
      AndNotPopcount(occupied, offset, U64_BITS);
    }
  }

  lemma {:induction false} SameBitsSamePopcount(x: nat, y: nat, width: nat)
    requires forall i: nat :: Bit(x, i) <==> Bit(y, i)
    requires forall i: nat :: Bit(x, i) ==> i < width
    ensures x == y
    decreases width
  {
    assert Bit(x, 0) <==> Bit(y, 0);
    if width == 0 {
      if x > 0 {
        var i := NonzeroHasBit(x);
      }
      if y > 0 {
        var i := NonzeroHasBit(y);
      }
    } else {
      forall i: nat
        ensures Bit(x / 2, i) <==> Bit(y / 2, i)
        ensures Bit(x / 2, i) ==> i < width - 1
      {
        assert Bit(x, i + 1) == Bit(x / 2, i) && Bit(y, i + 1) == Bit(y / 2, i);
      }
      SameBitsSamePopcount(x / 2, y / 2, width - 1);
    }
  }
}
