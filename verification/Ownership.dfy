/** Who owns which root capability slot, over every run of the substrate's public operations. */
module Ownership {
  import opened Machine

  datatype Owner = ObjectOwner | TaskOwner | MappingOwner | PoolOwner

  // The slots `[lo, hi)` handed to one owner for good.
  datatype Grant = Grant(owner: Owner, lo: nat, hi: nat)

  // The general-purpose slots are `[first, end)`; those from `start` on are still to be
  // allocated. `filled` are the slots of the root CNode that hold a capability.
  datatype Ledger = Ledger(first: nat, start: nat, end: nat, filled: set<nat>, grants: seq<Grant>) {
    ghost predicate Sound() {
      && first <= start <= end
      && (forall k :: start <= k < end ==> k !in filled)
      && (forall i :: 0 <= i < |grants| ==> first <= grants[i].lo <= grants[i].hi <= start)
      && (forall i, j :: 0 <= i < j < |grants| ==> grants[i].hi <= grants[j].lo)
      && (forall i, k :: 0 <= i < |grants| && !grants[i].owner.PoolOwner? && grants[i].lo <= k < grants[i].hi
                         ==> k in filled)
    }

    ghost predicate Owns(i: nat, k: nat) {
      i < |grants| && grants[i].lo <= k < grants[i].hi
    }

    ghost predicate InPool(k: nat) {
      exists i: nat :: Owns(i, k) && grants[i].owner.PoolOwner?
    }
  }

  // What one operation does to the ledger. `Leaked` is a rollback that the kernel interrupted;
  // `PoolSlot` is a reply right saved into, used from or deleted from a pool.
  datatype Change = Granted(owner: Owner) | Unchanged | Leaked | PoolSlot(slot: nat)

  ghost predicate Step(a: Ledger, change: Change, b: Ledger) {
    && b.first == a.first
    && b.end == a.end
    && match change
       case Granted(owner) =>
         && a.start <= b.start <= a.end
         && b.grants == a.grants + [Grant(owner, a.start, b.start)]
         && (forall k :: k in b.filled <==> k in a.filled || (!owner.PoolOwner? && a.start <= k < b.start))
       case Unchanged => b == a
       case Leaked =>
         && a.start <= b.start <= a.end
         && b.grants == a.grants
         && (forall k :: k in a.filled ==> k in b.filled)
         && (forall k :: k in b.filled ==> k in a.filled || a.start <= k < b.start)
       case PoolSlot(slot) =>
         && a.InPool(slot)
         && b.start == a.start
         && b.grants == a.grants
         && (forall k :: k != slot ==> (k in b.filled <==> k in a.filled))
  }

  lemma StepKeepsSound(a: Ledger, change: Change, b: Ledger)
    requires a.Sound() && Step(a, change, b)
    ensures b.Sound()
  {
    match change
    case PoolSlot(slot) =>
      var i: nat :| a.Owns(i, slot) && a.grants[i].owner.PoolOwner?;
      forall j, k | 0 <= j < |b.grants| && !b.grants[j].owner.PoolOwner? && b.grants[j].lo <= k < b.grants[j].hi
        ensures k in b.filled
      {
        assert k != slot by {
          assert i != j;
          if i < j {
            assert a.grants[i].hi <= a.grants[j].lo;
          } else {
            assert a.grants[j].hi <= a.grants[i].lo;
          }
        }
      }
    case _ =>
  }

  // An operation leaves the slots of every owner alone, except that a pool's own operation may
  // fill or empty its slot.
  lemma StepsLeaveOwnersAlone(a: Ledger, change: Change, b: Ledger, i: nat, k: nat)
    requires a.Sound() && Step(a, change, b) && a.Owns(i, k) && change != PoolSlot(k)
    ensures b.Owns(i, k) && b.grants[i] == a.grants[i]
    ensures k in b.filled <==> k in a.filled
  {
    assert a.grants[i].hi <= a.start;
  }

  ghost predicate IsRun(run: seq<Ledger>, changes: seq<Change>) {
    && |run| == |changes| + 1
    && forall i :: 0 <= i < |changes| ==> Step(run[i], changes[i], run[i + 1])
  }

  // Whatever operations run, in whatever order and with whatever kernel failures: no slot still
  // to be allocated holds a capability, and no slot belongs to two owners.
  lemma {:induction false} EveryRunKeepsOwnership(run: seq<Ledger>, changes: seq<Change>, at: nat)
    requires IsRun(run, changes) && run[0].Sound() && at < |run|
    ensures run[at].Sound()
    ensures forall k :: run[at].start <= k < run[at].end ==> k !in run[at].filled
    ensures forall i: nat, j: nat, k: nat :: run[at].Owns(i, k) && run[at].Owns(j, k) ==> i == j
  {
    if at > 0 {
      EveryRunKeepsOwnership(run, changes, at - 1);
      StepKeepsSound(run[at - 1], changes[at - 1], run[at]);
    }
  }

  // An owner keeps its slots, filled if it is not a pool, to the end of the run; and allocation
  // never goes back over a slot that an earlier operation left behind.
  lemma {:induction false} OwnersAreNeverEvicted(run: seq<Ledger>, changes: seq<Change>, early: nat, late: nat)
    requires IsRun(run, changes) && run[0].Sound() && early <= late < |run|
    ensures run[early].grants <= run[late].grants
    ensures run[early].start <= run[late].start
    ensures run[late].Sound()
    decreases late
  {
    EveryRunKeepsOwnership(run, changes, late);
    if early < late {
      OwnersAreNeverEvicted(run, changes, early, late - 1);
      assert run[late - 1].grants <= run[late].grants;
    }
  }

  // The slots that an interrupted rollback leaves behind are lost, and only lost: no later
  // operation of the run ever makes them anyone's.
  lemma {:induction false} LeakedSlotsAreNeverReused(run: seq<Ledger>, changes: seq<Change>, leak: nat, late: nat,
                                                     k: nat)
    requires IsRun(run, changes) && run[0].Sound()
    requires leak < late < |run| && changes[leak] == Leaked
    requires run[leak].start <= k < run[leak + 1].start
    ensures forall i: nat :: !run[late].Owns(i, k)
    decreases late
  {
    if late == leak + 1 {
      EveryRunKeepsOwnership(run, changes, leak);
      assert run[late].grants == run[leak].grants;
    } else {
      LeakedSlotsAreNeverReused(run, changes, leak, late - 1, k);
      OwnersAreNeverEvicted(run, changes, leak + 1, late - 1);
      forall i: nat
        ensures !run[late].Owns(i, k)
      {
        assert !run[late - 1].Owns(i, k);
      }
    }
  }
}
