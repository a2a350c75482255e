/** The bounded pool of root slots for saved reply rights (ipc.rs). */
module ReplyPools {
  import opened Machine
  import opened Bits
  import opened Kernels
  import opened Boot
  import opened Ownership
  import opened PoolBitmaps
  import opened DeferredReplies

  class ReplyPool {
    const slots: Range
    var occupied: nat      // a 64-bit word
    ghost var history: PoolState

    // The bitmap is within the pool's capacity.
    ghost predicate IsBitmap()
      reads this
    {
      && slots.start <= slots.end <= USIZE_MAX
      && 0 < slots.Len() <= MAX_DEFERRED_REPLIES
      && BitsBelow(occupied, slots.Len())
    }

    // Between two operations the bitmap is the one of the pool's history.
    ghost predicate Valid()
      reads this
    {
      && IsBitmap()
      && history.Sound()
      && history.capacity == slots.Len()
      && history.occupied == occupied
    }

    // Whether a slot of the pool is handed out.
    predicate Holds(slot: nat)
      reads this
    {
      slots.Contains(slot) && Bit(occupied, slot - slots.start)
    }

    // Whether the token for a slot of the pool is still to be used.
    ghost predicate HasToken(slot: nat)
      reads this
    {
      slots.Contains(slot) && slot - slots.start in history.tokens
    }

    constructor (slots: Range)
      requires slots.start <= slots.end <= USIZE_MAX && 0 < slots.Len() <= MAX_DEFERRED_REPLIES
      ensures Valid() && this.slots == slots && occupied == 0
      ensures history == PoolState(slots.Len(), 0, {}, {}, map[], 0, 0, 0)
      ensures forall k: nat :: !Holds(k)
    {
      this.slots, occupied := slots, 0;
      history := PoolState(slots.Len(), 0, {}, {}, map[], 0, 0, 0);
      new;
      forall i: nat
        ensures !Bit(0, i)
      {
        ZeroHasNoBits(i);
      }
    }

    // Hands out the least free slot; nothing, only when every slot is out.
    method Reserve() returns (slot: Option<usize>)
      requires IsBitmap()
      modifies this`occupied
      ensures IsBitmap()
      ensures slot == None ==> forall k: nat :: slots.Contains(k) ==> old(Holds(k))
      ensures slot.Some? ==>
                && slots.Contains(slot.value) && !old(Holds(slot.value))
                && (forall k: nat :: slots.start <= k < slot.value ==> old(Holds(k)))
                && (forall k: nat :: Holds(k) <==> old(Holds(k)) || k == slot.value)
                && Popcount(occupied) == old(Popcount(occupied)) + 1
      ensures slot.Some? ==> FreeOffset(old(occupied), slots.Len()) == Some(slot.value - slots.start)
                             && occupied == WithBit(old(occupied), slot.value - slots.start)
      ensures slot == None ==> occupied == old(occupied) && FreeOffset(occupied, slots.Len()) == None
    {
      FreeOffsetIsLeast(occupied, slots.Len());
      var free := FreeOffset(occupied, slots.Len());
      if free == None {
        forall k: nat | slots.Contains(k)
          ensures Holds(k)
        {
          var i: nat := k - slots.start;
          assert i < slots.Len();
        }
        return None;
      }
      var offset := free.value;
      WithBitSets(occupied, offset);
      occupied := WithBit(occupied, offset);
      slot := CheckedAdd(slots.start, offset);
    }

    // Takes back exactly this slot, if it is one of the pool's.
    method Release(slot: usize)
      requires IsBitmap()
      modifies this`occupied
      ensures IsBitmap()
      ensures forall k: nat :: Holds(k) <==> old(Holds(k)) && k != slot
      ensures Popcount(occupied) == old(Popcount(occupied)) - (if old(Holds(slot)) then 1 else 0)
      ensures occupied == if slots.Contains(slot) then WithoutBit(old(occupied), slot - slots.start) else old(occupied)
    {
      if slot >= slots.start && slot - slots.start < slots.Len() {
        WithoutBitClears(occupied, slot - slots.start);
        if !Bit(occupied, slot - slots.start) {
          SameBitsSamePopcount(occupied, WithoutBit(occupied, slot - slots.start), U64_BITS);
        }
        occupied := WithoutBit(occupied, slot - slots.start);
      }
    }
  }

  // The slots hold exactly these rights, by offset, and nothing else.
  ghost predicate HoldsRights(slots: Range, filled: map<nat, nat>, root: map<nat, Cap>) {
    forall slot: nat :: slots.Contains(slot) ==>
      && (slot in root <==> slot - slots.start in filled)
      && (slot in root ==> root[slot] == ReplyCap(filled[slot - slots.start]))
  }

  // The root slots of the pool hold saved rights, exactly where its history says.
  ghost predicate IsBacked(pool: ReplyPool, s: KernelState)
    reads pool
  {
    pool.Valid() && HoldsRights(pool.slots, pool.history.filled, s.root)
  }

  lemma RightAdded(slots: Range, filled: map<nat, nat>, root: map<nat, Cap>, offset: nat, right: nat)
    requires HoldsRights(slots, filled, root)
    ensures HoldsRights(slots, filled[offset := right], root[slots.start + offset := ReplyCap(right)])
  {
  }

  lemma RightRemoved(slots: Range, filled: map<nat, nat>, root: map<nat, Cap>, offset: nat)
    requires HoldsRights(slots, filled, root)
    ensures HoldsRights(slots, filled - {offset}, root - {slots.start + offset})
  {
  }

  // The ledger gives every slot of the pool to a pool.
  ghost predicate IsGranted(pool: ReplyPool, ledger: Ledger) {
    forall k: nat :: pool.slots.Contains(k) ==> ledger.InPool(k)
  }

  // Filling or emptying a pool slot is one step of the ledger, and touches no object and no
  // capability to an object.
  lemma PoolSlotStep(s: Snapshot, t: Snapshot, grants: seq<Grant>, slot: nat)
    requires LedgerOf(s, grants).Sound() && LedgerOf(s, grants).InPool(slot)
    requires slot in s.kernel.root ==> s.kernel.root[slot].ReplyCap?
    requires slot in t.kernel.root ==> t.kernel.root[slot].ReplyCap?
    requires t.slots == s.slots
    requires t.kernel.(root := s.kernel.root, caller := s.kernel.caller) == s.kernel
    requires t.kernel.root - {slot} == s.kernel.root - {slot}
    ensures LedgerOf(t, grants).Sound() && Step(LedgerOf(s, grants), PoolSlot(slot), LedgerOf(t, grants))
    ensures LeavesAlone({}, s.kernel, t.kernel)
    ensures s.kernel.Consistent() ==> t.kernel.Consistent()
  {
    var a, b := LedgerOf(s, grants), LedgerOf(t, grants);
    forall k | k != slot
      ensures k in s.kernel.root <==> k in t.kernel.root
      ensures k in s.kernel.root ==> t.kernel.root[k] == s.kernel.root[k]
    {
      assert k in s.kernel.root <==> k in s.kernel.root - {slot};
      assert k in t.kernel.root <==> k in t.kernel.root - {slot};
    }
    assert Step(a, PoolSlot(slot), b);
    StepKeepsSound(a, PoolSlot(slot), b);
  }

  predicate AreApart(a: Range, b: Range) {
    a.end <= b.start || b.end <= a.start || a.Len() == 0 || b.Len() == 0
  }

  // A pool that is set aside later has no slot in common with an earlier one.
  lemma PoolsAreApart(pool: ReplyPool, ledger: Ledger, later: Range)
    requires pool.Valid() && ledger.Sound() && IsGranted(pool, ledger) && ledger.start <= later.start
    ensures AreApart(pool.slots, later)
  {
    assert ledger.InPool(pool.slots.end - 1);
  }

  // What one pool does in its slots leaves the rights of every other pool alone.
  lemma OtherPoolStaysBacked(pool: ReplyPool, s: KernelState, t: KernelState, other: Range, slot: nat)
    requires IsBacked(pool, s) && AreApart(pool.slots, other) && other.Contains(slot)
    requires t.root - {slot} == s.root - {slot}
    ensures IsBacked(pool, t)
  {
    forall k: nat | pool.slots.Contains(k)
      ensures k in t.root <==> k in s.root
      ensures k in t.root ==> t.root[k] == s.root[k]
    {
      assert k in t.root <==> k in t.root - {slot};
      assert k in s.root <==> k in s.root - {slot};
    }
  }

  // Later grants do not take a slot from a pool.
  lemma PoolStaysGranted(pool: ReplyPool, a: Ledger, b: Ledger)
    requires IsGranted(pool, a) && a.grants <= b.grants
    ensures IsGranted(pool, b)
  {
    forall k: nat | pool.slots.Contains(k)
      ensures b.InPool(k)
    {
      assert a.InPool(k);
      var i: nat :| a.Owns(i, k) && a.grants[i].owner.PoolOwner?;
      assert b.Owns(i, k);
    }
  }

  // A pool keeps every right saved in it through whatever only adds to the root CNode in slots
  // taken from general allocation, such as a construction that succeeds, is undone or leaks.
  lemma PoolStaysBacked(pool: ReplyPool, s: Snapshot, t: Snapshot, grants: seq<Grant>)
    requires LedgerOf(s, grants).Sound() && IsGranted(pool, LedgerOf(s, grants))
    requires IsBacked(pool, s.kernel) && RootGrew(s, t)
    ensures IsBacked(pool, t.kernel)
    ensures forall slot: nat :: pool.slots.Contains(slot) && slot in s.kernel.root ==>
                                  slot in t.kernel.root && t.kernel.root[slot] == s.kernel.root[slot]
  {
    forall slot: nat | pool.slots.Contains(slot)
      ensures slot in t.kernel.root <==> slot in s.kernel.root
    {
      assert LedgerOf(s, grants).InPool(slot);
    }
  }

  // Sets aside a run of empty root slots that no other owner will be given.
  method AllocateReplyPool(b: Bootstrap, capacity: usize, ghost grants: seq<Grant>)
    returns (r: Result<ReplyPool, BootstrapError>)
    requires b.Valid(grants)
    modifies b.slots
    ensures r == Err(InvalidTaskConfiguration) <==> capacity == 0 || capacity > MAX_DEFERRED_REPLIES
    ensures r == Err(NoFreeSlots) <==>
              0 < capacity <= MAX_DEFERRED_REPLIES && old(b.slots.start) + capacity > b.slots.end
    ensures r.Err? ==> r.error in {InvalidTaskConfiguration, NoFreeSlots} && b.Now() == old(b.Now())
    ensures r.Ok? ==>
              var after := grants + [Grant(PoolOwner, r.value.slots.start, r.value.slots.end)];
              && fresh(r.value) && r.value.Valid() && r.value.occupied == 0
              && r.value.slots == Range(old(b.slots.start), old(b.slots.start) + capacity)
              && IsBacked(r.value, b.kernel.s)
              && IsGranted(r.value, LedgerOf(b.Now(), after))
              && (forall k :: r.value.slots.Contains(k) ==> k !in b.kernel.s.root)
              && b.Valid(after)
              && Step(LedgerOf(old(b.Now()), grants), Granted(PoolOwner), LedgerOf(b.Now(), after))
  {
    if capacity == 0 || capacity > MAX_DEFERRED_REPLIES {
      return Err(InvalidTaskConfiguration);
    }
    var slots := b.ReserveEmptySlots(capacity, grants);
    if slots == None {
      return Err(NoFreeSlots);
    }
    ghost var after := grants + [Grant(PoolOwner, slots.value.start, slots.value.end)];
    forall k | slots.value.Contains(k)
      ensures LedgerOf(b.Now(), after).InPool(k)
    {
      assert LedgerOf(b.Now(), after).Owns(|grants|, k);
    }
    var pool := new ReplyPool(slots.value);
    return Ok(pool);
  }
}
