/**
 The root task's bootstrap resources (boot.rs): first-fit creation of kernel objects (object.rs),
 root copies (cspace.rs), and the rollback of a construction that failed.
 */
module Boot {
  import opened Machine
  import opened Kernels
  import opened Ownership
  import Slots

  datatype Untyped = Untyped(isDevice: bool, sizeBits: nat)

  // What the kernel tells the root task: which slots are empty, which hold untyped memory and
  // the initial image, and a description of each untyped.
  datatype BootInfo = BootInfo(
    empty: (usize, usize), untypedSlots: Range, untypedList: seq<Untyped>, imageFrames: Range)
  {
    predicate IsCandidate(index: nat, need: nat) {
      && index < |untypedList|
      && index < untypedSlots.Len()
      && !untypedList[index].isDevice
      && need <= untypedList[index].sizeBits
    }

    // The untypeds worth trying from `index` on, lowest index first.
    function Candidates(need: nat, index: nat): seq<nat>
      decreases |untypedList| - index
    {
      if index >= |untypedList| then []
      else if IsCandidate(index, need) then [index] + Candidates(need, index + 1)
      else Candidates(need, index + 1)
    }

    // Exactly the untypeds that are ordinary memory of sufficient size within both lists, each
    // once and in ascending order.
    lemma {:induction false} CandidatesAreExact(need: nat, index: nat)
      ensures forall i :: i in Candidates(need, index) <==> index <= i && IsCandidate(i, need)
      ensures forall j, k :: 0 <= j < k < |Candidates(need, index)| ==>
                               Candidates(need, index)[j] < Candidates(need, index)[k]
      decreases |untypedList| - index
    {
      if index < |untypedList| {
        CandidatesAreExact(need, index + 1);
        var rest := Candidates(need, index + 1);
        assert forall k :: 0 <= k < |rest| ==> rest[k] in rest;
      }
    }
  }

  // An untyped is tried exactly for the objects that it could hold, if it is ordinary memory with
  // both a description and a slot.
  lemma CandidatesAreSuitable(info: BootInfo, p: Platform, kind: Kind, index: nat)
    ensures info.IsCandidate(index, p.ObjectBits(kind)) <==>
              && index < |info.untypedList|
              && info.untypedSlots.start + index < info.untypedSlots.end
              && !info.untypedList[index].isDevice
              && var size := info.untypedList[index].sizeBits;
                 match kind
                 case CNodeKind(bits) => bits + p.slotBits <= size
                 case VSpaceKind => p.vspaceBits <= size
                 case TableKind(_) => p.tableBits <= size
                 case FrameKind => p.pageBits <= size
                 case TcbKind => p.tcbBits <= size
                 case EndpointKind => p.endpointBits <= size
                 case NotificationKind => p.notificationBits <= size
  {
  }

  // The allocator, the kernel and the kernel calls made so far, as one value.
  datatype Snapshot = Snapshot(slots: Slots.SlotState, kernel: KernelState, log: seq<Event>)

  // The kernel turned the call down, and not because of a capability that the configuration
  // names: a source that does not exist, or a frame to map that is none.
  predicate IsCollision(event: Event) {
    event.outcome.Refused? && event.outcome.reason != MissingSource
    && !(event.outcome.reason == WrongCap && event.call.MapFrame?)
  }

  // The error reported for a call that did not succeed.
  function FailureOf(call: Call, outcome: Outcome): BootstrapError {
    match call
    case Retype(_, _, _) => if outcome == NotEnoughMemory then NoKernelMemory else KernelAllocationFailed
    case CopyCap(_, _, _) => CSpaceCreationFailed
    case Mint(_, _, _, _, _) => CSpaceCreationFailed
    case AssignAsid(_) => VSpaceCreationFailed
    case MapTable(_, _, _, _) => VSpaceCreationFailed
    case MapFrame(_, _, _, _) => FrameMappingFailed
    case Configure(_, _) => ThreadConfigurationFailed
    case WriteRegisters(_, _) => ThreadConfigurationFailed
    case Delete(_) => RollbackFailed
    case SaveCaller(_) => RollbackFailed
  }

  // No call since `a` asked for something taken, out of range or not yet prepared.
  ghost predicate NoCollisions(a: Snapshot, b: Snapshot) {
    a.log <= b.log && forall i :: |a.log| <= i < |b.log| ==> !IsCollision(b.log[i])
  }

  ghost predicate NoDeletes(a: Snapshot, b: Snapshot) {
    a.log <= b.log && forall i :: |a.log| <= i < |b.log| ==> !b.log[i].call.Delete?
  }

  // Objects numbered below `base` and the rights to answer are as they were.
  ghost predicate OldObjectsKept(base: nat, a: KernelState, b: KernelState) {
    a.nextId <= b.nextId && ObjectsKept(base, {}, a, b) && a.caller == b.caller && a.nextRight == b.nextRight
  }

  // From `a` to `b` construction only moved forward: every slot taken since is filled, every
  // other slot and every object below `base` is untouched, and nothing was deleted.
  ghost predicate Grew(base: nat, a: Snapshot, b: Snapshot) {
    && a.slots.first == b.slots.first
    && a.slots.end == b.slots.end
    && a.slots.start <= b.slots.start
    && (forall k :: k in b.kernel.root <==> k in a.kernel.root || a.slots.start <= k < b.slots.start)
    && (forall k :: k in a.kernel.root ==> k in b.kernel.root && b.kernel.root[k] == a.kernel.root[k])
    && OldObjectsKept(base, a.kernel, b.kernel)
    && NoDeletes(a, b)
  }

  // The root CNode kept all its capabilities, and whatever is new sits in slots taken since.
  ghost predicate RootGrew(a: Snapshot, b: Snapshot) {
    && a.slots.start <= b.slots.start
    && (forall k :: k in a.kernel.root ==> k in b.kernel.root && b.kernel.root[k] == a.kernel.root[k])
    && (forall k :: k in b.kernel.root ==> k in a.kernel.root || a.slots.start <= k < b.slots.start)
  }

  lemma GrewThenGrew(base: nat, a: Snapshot, b: Snapshot, c: Snapshot)
    requires Grew(base, a, b) && Grew(base, b, c)
    ensures Grew(base, a, c)
    ensures NoCollisions(a, b) && NoCollisions(b, c) ==> NoCollisions(a, c)
  {
    assert forall i :: |a.log| <= i < |b.log| ==> c.log[i] == b.log[i];
  }

  lemma NothingGrew(base: nat, a: Snapshot, b: Snapshot)
    requires NoDeletes(a, b)
    requires b.slots == a.slots && b.kernel == a.kernel
    ensures Grew(base, a, b)
  {
  }

  lemma NewObjectGrew(p: Platform, base: nat, a: Snapshot, b: Snapshot, call: Call)
    requires a.kernel.Consistent() && base <= a.kernel.nextId
    requires call.Retype? || call.CopyCap?
    requires call.slot == a.slots.start < a.slots.end && Refusal(p, a.kernel, call) == None
    requires NoDeletes(a, b)
    requires b.slots == a.slots.(start := a.slots.start + 1) && b.kernel == Effect(p, a.kernel, call)
    ensures Grew(base, a, b)
  {
  }

  // The kernel deleted `[low, high)` from the top down; `stopped` if it refused at `low - 1`.
  ghost predicate DeletedDownTo(events: seq<Event>, low: nat, high: nat, stopped: bool)
  {
    && low <= high
    && |events| == high - low + (if stopped then 1 else 0)
    && (stopped ==> low > 0 && events[high - low].call == Delete(low - 1)
                    && events[high - low].outcome != Done && !events[high - low].outcome.Refused?)
    && (forall j :: 0 <= j < high - low ==> events[j] == Event(Delete(high - 1 - j), Done))
  }

  // Everything the failed construction did to the root CNode, the allocator and older objects
  // is undone.
  ghost predicate Restored(base: nat, a: Snapshot, b: Snapshot) {
    && b.slots == a.slots
    && b.kernel.root == a.kernel.root
    && OldObjectsKept(base, a.kernel, b.kernel)
  }

  // What an interrupted rollback leaves: slots that the construction had filled, and nothing else.
  ghost predicate OnlyLeaked(base: nat, a: Snapshot, b: Snapshot) {
    RootGrew(a, b) && OldObjectsKept(base, a.kernel, b.kernel)
  }

  // The three ways a construction can end: done, undone, or interrupted while being undone.
  ghost predicate IsConstruction(a: Snapshot, b: Snapshot) {
    || Grew(a.kernel.nextId, a, b)
    || Restored(a.kernel.nextId, a, b)
    || OnlyLeaked(a.kernel.nextId, a, b)
  }

  // Some deletion since `a` did not succeed.
  ghost predicate DeleteFailed(a: Snapshot, b: Snapshot) {
    exists i :: |a.log| <= i < |b.log| && b.log[i].call.Delete? && b.log[i].outcome != Done
  }

  // The call that did not succeed and so ended a construction: everything after it deletes.
  ghost predicate StoppedBy(a: Snapshot, b: Snapshot, error: BootstrapError) {
    exists i :: |a.log| <= i < |b.log| && b.log[i].outcome != Done
                && FailureOf(b.log[i].call, b.log[i].outcome) == error
                && forall j :: i < j < |b.log| ==> b.log[j].call.Delete?
  }

  // So an error names the kind of kernel call that ended the construction.
  lemma ErrorsNameTheCall(a: Snapshot, b: Snapshot, error: BootstrapError)
    requires StoppedBy(a, b, error)
    ensures exists i ::
              && |a.log| <= i < |b.log|
              && b.log[i].outcome != Done
              && (forall j :: i < j < |b.log| ==> b.log[j].call.Delete?)
              && match error
                 case NoKernelMemory => b.log[i].call.Retype? && b.log[i].outcome == NotEnoughMemory
                 case KernelAllocationFailed => b.log[i].call.Retype? && b.log[i].outcome != NotEnoughMemory
                 case CSpaceCreationFailed => b.log[i].call.CopyCap? || b.log[i].call.Mint?
                 case VSpaceCreationFailed => b.log[i].call.AssignAsid? || b.log[i].call.MapTable?
                 case FrameMappingFailed => b.log[i].call.MapFrame?
                 case ThreadConfigurationFailed => b.log[i].call.Configure? || b.log[i].call.WriteRegisters?
                 case RollbackFailed => b.log[i].call.Delete? || b.log[i].call.SaveCaller?
                 case _ => false
  {
    var i :| |a.log| <= i < |b.log| && b.log[i].outcome != Done
             && FailureOf(b.log[i].call, b.log[i].outcome) == error
             && forall j :: i < j < |b.log| ==> b.log[j].call.Delete?;
    assert b.log[i].outcome != Done;
  }

  // Emptying what a construction filled brings back the root CNode it started from.
  lemma EmptyingRestores(base: nat, a: Snapshot, mid: Snapshot, b: Snapshot)
    requires Grew(base, a, mid) && forall k :: a.slots.start <= k < a.slots.end ==> k !in a.kernel.root
    requires mid.slots.start <= mid.slots.end
    requires b.slots == mid.slots.(start := a.slots.start)
    requires b.kernel == mid.kernel.(root := mid.kernel.root - Span(a.slots.start, mid.slots.start))
    ensures Restored(base, a, b)
  {
    assert b.kernel.root == a.kernel.root;
  }

  // An interrupted one leaves only slots that the construction had filled.
  lemma PartlyEmptied(base: nat, a: Snapshot, mid: Snapshot, root: map<nat, Cap>, low: nat)
    requires Grew(base, a, mid) && forall k :: a.slots.start <= k < a.slots.end ==> k !in a.kernel.root
    requires a.slots.start < low <= mid.slots.start <= mid.slots.end
    requires root == mid.kernel.root - Span(low, mid.slots.start)
    ensures forall k :: k in a.kernel.root ==> k in root && root[k] == a.kernel.root[k]
    ensures forall k :: k in root ==> k in a.kernel.root || a.slots.start <= k < mid.slots.start
  {
  }

  // The calls of a rollback, seen from the state before the construction.
  lemma RollbackLog(a: Snapshot, mid: Snapshot, b: Snapshot, low: nat, high: nat, stopped: bool)
    requires NoDeletes(a, mid) && mid.log <= b.log
    requires DeletedDownTo(b.log[|mid.log|..], low, high, stopped)
    ensures NoCollisions(a, mid) ==> NoCollisions(a, b)
    ensures DeleteFailed(a, b) <==> stopped
    ensures forall i :: |mid.log| <= i < |b.log| ==> b.log[i].call.Delete?
  {
    var events := b.log[|mid.log|..];
    forall i | |a.log| <= i < |b.log|
      ensures i < |mid.log| ==> b.log[i] == mid.log[i]
      ensures i >= |mid.log| ==> b.log[i] == events[i - |mid.log|]
    {
    }
    if stopped {
      assert b.log[|mid.log| + high - low] == events[high - low];
    }
  }

  // Deletions do not hide the call that ended the construction.
  lemma RollbackCause(a: Snapshot, mid: Snapshot, b: Snapshot)
    requires a.log <= mid.log <= b.log && |a.log| < |mid.log| && mid.log[|mid.log| - 1].outcome != Done
    requires forall i :: |mid.log| <= i < |b.log| ==> b.log[i].call.Delete?
    ensures StoppedBy(a, b, FailureOf(mid.log[|mid.log| - 1].call, mid.log[|mid.log| - 1].outcome))
  {
    assert b.log[|mid.log| - 1] == mid.log[|mid.log| - 1];
  }

  // The root slots with their owners: whoever runs the substrate keeps the grants.
  ghost function LedgerOf(s: Snapshot, grants: seq<Grant>): Ledger {
    Ledger(s.slots.first, s.slots.start, s.slots.end, s.kernel.root.Keys, grants)
  }

  lemma ProductGrows(p: nat, a: nat, b: nat)
    requires a <= b
    ensures p * a <= p * b
    ensures p > 0 && a < b ==> p * a < p * b
  {
  }

  lemma DifferenceDivides(p: nat, m: nat, n: nat)
    requires p > 0 && n <= m
    ensures p * m - p * n == p * (m - n)
    ensures Quotient(p * m - p * n, p) == m - n
  {
    var k := m - n;
    var q := (p * k) / p;
    assert p * m - p * n == p * k;
    assert p * q <= p * k < p * (q + 1);
    if q < k {
      ProductGrows(p, q + 1, k);
    } else {
      ProductGrows(p, k, q);
    }
  }

  lemma MultiplesSubtract(a: nat, b: nat, p: nat)
    requires p > 0 && b <= a && a % p == 0 && b % p == 0
    ensures Quotient(a - b, p) * p == a - b
  {
    var m, n := a / p, b / p;
    assert a == p * m && b == p * n;
    DifferenceDivides(p, m, n);
  }

  class Bootstrap {
    const info: BootInfo
    const slots: Slots.FreeSlots
    const kernel: Kernel

    ghost function Now(): Snapshot
      reads slots, kernel
    {
      Snapshot(slots.State(), kernel.s, kernel.log)
    }

    // The allocator and the kernel agree: whatever is still to be allocated is empty.
    ghost predicate Wired()
      reads slots, kernel
    {
      && slots.Valid()
      && slots.first <= slots.end
      && kernel.s.Consistent()
      && (forall k :: slots.start <= k < slots.end ==> k !in kernel.s.root)
    }

    // Together with the slots granted to owners so far.
    ghost predicate Valid(grants: seq<Grant>)
      reads slots, kernel
    {
      Wired() && LedgerOf(Now(), grants).Sound()
    }

    constructor (info: BootInfo, kernel: Kernel)
      requires kernel.s.Consistent()
      requires info.empty.0 <= info.empty.1
      requires forall k :: info.empty.0 <= k < info.empty.1 ==> k !in kernel.s.root
      ensures Valid([]) && fresh(slots) && this.info == info && this.kernel == kernel
      ensures slots.State() == Slots.SlotState(info.empty.0, info.empty.0, info.empty.1)
    {
      this.info, this.kernel := info, kernel;
      slots := new Slots.FreeSlots(info.empty.0, info.empty.1);
    }

    // One try per candidate, lowest index first, each after the one before reported that its
    // untyped is used up.
    ghost predicate TriedInOrder(tried: seq<Event>, kind: Kind, slot: nat)
    {
      var candidates := info.Candidates(kernel.platform.ObjectBits(kind), 0);
      && |tried| <= |candidates|
      && (forall j :: 0 <= j < |tried| ==>
            tried[j].call == Retype(info.untypedSlots.start + candidates[j], kind, slot) && !tried[j].outcome.Refused?)
      && (forall j :: 0 <= j < |tried| - 1 ==> tried[j].outcome == NotEnoughMemory)
    }

    // How the search ended, read off the tries that it made.
    ghost predicate SearchEnded(tried: seq<Event>, kind: Kind, r: Result<(), BootstrapError>)
    {
      match r
      case Ok(_) => tried != [] && tried[|tried| - 1].outcome == Done
      case Err(NoKernelMemory) =>
        && |tried| == |info.Candidates(kernel.platform.ObjectBits(kind), 0)|
        && (tried != [] ==> tried[|tried| - 1].outcome == NotEnoughMemory)
      case Err(KernelAllocationFailed) => tried != [] && tried[|tried| - 1].outcome == Failed
      case Err(_) => false
    }

    // What such a search amounts to: it succeeds with the lowest suitable untyped after every
    // lower one reported that it is used up, and gives up for lack of memory exactly if all did.
    lemma FirstFitIsExact(tried: seq<Event>, kind: Kind, slot: nat, r: Result<(), BootstrapError>)
      requires TriedInOrder(tried, kind, slot) && SearchEnded(tried, kind, r)
      ensures var need := kernel.platform.ObjectBits(kind);
              && (r != Err(NoKernelMemory) ==>
                    exists index: nat ::
                      && info.IsCandidate(index, need)
                      && tried[|tried| - 1] == Event(Retype(info.untypedSlots.start + index, kind, slot),
                                                     if r.Ok? then Done else Failed)
                      && forall i: nat :: i < index && info.IsCandidate(i, need) ==>
                           Event(Retype(info.untypedSlots.start + i, kind, slot), NotEnoughMemory) in tried)
              && (r == Err(NoKernelMemory) <==>
                    forall i: nat :: info.IsCandidate(i, need) ==>
                      Event(Retype(info.untypedSlots.start + i, kind, slot), NotEnoughMemory) in tried)
    {
      var need := kernel.platform.ObjectBits(kind);
      var candidates := info.Candidates(need, 0);
      info.CandidatesAreExact(need, 0);
      forall i: nat | info.IsCandidate(i, need) &&
          (r == Err(NoKernelMemory) || i < candidates[|tried| - 1])
        ensures Event(Retype(info.untypedSlots.start + i, kind, slot), NotEnoughMemory) in tried
      {
        assert i in candidates;
        var j :| 0 <= j < |candidates| && candidates[j] == i;
        if r != Err(NoKernelMemory) && j >= |tried| - 1 {
          assert false;
        }
        assert tried[j] == Event(Retype(info.untypedSlots.start + i, kind, slot), NotEnoughMemory);
      }
      if r != Err(NoKernelMemory) {
        var last := candidates[|tried| - 1];
        assert last in candidates && info.IsCandidate(last, need);
        forall j | 0 <= j < |tried|
          ensures tried[j] != Event(Retype(info.untypedSlots.start + last, kind, slot), NotEnoughMemory)
        {
          assert j < |tried| - 1 ==> candidates[j] < last;
        }
      }
    }

    // The tries on some untypeds: all but the last report no memory.
    ghost function Tries(passed: seq<nat>, kind: Kind, slot: nat, last: Outcome): seq<Event> {
      seq(|passed|, j requires 0 <= j < |passed| =>
        Event(Retype(info.untypedSlots.start + passed[j], kind, slot),
              if j < |passed| - 1 then NotEnoughMemory else last))
    }

    lemma OneMoreTry(passed: seq<nat>, index: nat, kind: Kind, slot: nat, outcome: Outcome)
      ensures Tries(passed, kind, slot, NotEnoughMemory)
              + [Event(Retype(info.untypedSlots.start + index, kind, slot), outcome)]
           == Tries(passed + [index], kind, slot, outcome)
    {
    }

    lemma TriesAreInOrder(passed: seq<nat>, rest: seq<nat>, kind: Kind, slot: nat, last: Outcome)
      requires info.Candidates(kernel.platform.ObjectBits(kind), 0) == passed + rest && !last.Refused?
      ensures TriedInOrder(Tries(passed, kind, slot, last), kind, slot)
    {
    }

    // One more try, into a slot known to be empty.
    method RetypeFrom(index: nat, kind: Kind, slot: nat, ghost passed: seq<nat>, ghost before: seq<Event>)
      returns (outcome: Outcome)
      requires slot !in kernel.s.root && kernel.s.Consistent()
      requires kernel.log == before + Tries(passed, kind, slot, NotEnoughMemory)
      modifies kernel
      ensures kernel.s.Consistent() && !outcome.Refused?
      ensures kernel.log == before + Tries(passed + [index], kind, slot, outcome)
      ensures kernel.s == if outcome == Done then Effect(kernel.platform, old(kernel.s), Retype(0, kind, slot))
                          else old(kernel.s)
    {
      var call := Retype(info.untypedSlots.start + index, kind, slot);
      outcome := kernel.Invoke(call);
      AppendAssociates(before, Tries(passed, kind, slot, NotEnoughMemory), [Event(call, outcome)]);
      OneMoreTry(passed, index, kind, slot, outcome);
    }

    lemma CandidatesMove(need: nat, index: nat, passed: seq<nat>)
      requires info.IsCandidate(index, need)
      ensures passed + info.Candidates(need, index) == (passed + [index]) + info.Candidates(need, index + 1)
    {
    }

    lemma NoCandidatesBeyond(need: nat, index: nat)
      requires index >= |info.untypedList| || index >= info.untypedSlots.Len()
      ensures info.Candidates(need, index) == []
      decreases |info.untypedList| - index
    {
      if index < |info.untypedList| {
        NoCandidatesBeyond(need, index + 1);
      }
    }

    // The search of `allocate_blueprint`: a failed retype leaves the slot empty, so the same
    // slot serves for the next try.
    method FirstFit(kind: Kind, slot: nat) returns (r: Result<(), BootstrapError>, ghost tried: seq<Event>)
      requires slot !in kernel.s.root && kernel.s.Consistent()
      modifies kernel
      ensures kernel.s.Consistent() && kernel.log == old(kernel.log) + tried
      ensures TriedInOrder(tried, kind, slot) && SearchEnded(tried, kind, r)
      ensures r.Err? ==> kernel.s == old(kernel.s)
      ensures r.Ok? ==> kernel.s == Effect(kernel.platform, old(kernel.s), Retype(0, kind, slot))
    {
      var need := kernel.platform.ObjectBits(kind);
      var index: nat := 0;
      ghost var passed: seq<nat> := [];
      while index < |info.untypedList| && index < info.untypedSlots.Len()
        invariant index <= |info.untypedList|
        invariant kernel.s == old(kernel.s)
        invariant kernel.log == old(kernel.log) + Tries(passed, kind, slot, NotEnoughMemory)
        invariant info.Candidates(need, 0) == passed + info.Candidates(need, index)
      {
        if info.untypedList[index].isDevice || info.untypedList[index].sizeBits < need {
          index := index + 1;
          continue;
        }
        CandidatesMove(need, index, passed);
        var outcome := RetypeFrom(index, kind, slot, passed, old(kernel.log));
        passed := passed + [index];
        if outcome != NotEnoughMemory {
          tried := Tries(passed, kind, slot, outcome);
          TriesAreInOrder(passed, info.Candidates(need, index + 1), kind, slot, outcome);
          r := if outcome == Done then Ok(()) else Err(KernelAllocationFailed);
          return;
        }
        index := index + 1;
      }
      NoCandidatesBeyond(need, index);
      tried := Tries(passed, kind, slot, NotEnoughMemory);
      TriesAreInOrder(passed, [], kind, slot, NotEnoughMemory);
      return Err(NoKernelMemory), tried;
    }

    ghost predicate NothingHolds(bits: nat) {
      forall i: nat :: !info.IsCandidate(i, bits)
    }

    // No untyped is large enough for such an object, used up or not.
    ghost predicate DoesNotFit(kind: Kind) {
      NothingHolds(kernel.platform.ObjectBits(kind))
    }

    // Not even one of each object of fixed size would fit.
    ghost predicate AFixedKindDoesNotFit() {
      NothingHolds(kernel.platform.LargestFixedBits())
    }

    lemma FixedKindIsNotLargest(kind: Kind)
      requires info.Candidates(kernel.platform.ObjectBits(kind), 0) == []
      ensures DoesNotFit(kind)
      ensures !kind.CNodeKind? ==> AFixedKindDoesNotFit()
    {
      var need := kernel.platform.ObjectBits(kind);
      info.CandidatesAreExact(need, 0);
      forall i: nat
        ensures !info.IsCandidate(i, need)
        ensures !kind.CNodeKind? ==> !info.IsCandidate(i, kernel.platform.LargestFixedBits())
      {
        assert i !in info.Candidates(need, 0);
      }
    }

    // The last of the calls made after the first `from` did not succeed, with this error.
    ghost predicate LastCallFailed(from: nat, error: BootstrapError)
      reads kernel
    {
      && from < |kernel.log|
      && kernel.log[|kernel.log| - 1].outcome != Done
      && !kernel.log[|kernel.log| - 1].call.SaveCaller?
      && error == FailureOf(kernel.log[|kernel.log| - 1].call, kernel.log[|kernel.log| - 1].outcome)
    }

    // What an error says about the state a construction stopped in.
    ghost predicate Explains(from: nat, error: BootstrapError)
      reads slots, kernel
    {
      match error
      case NoFreeSlots => slots.start >= slots.end
      case NoKernelMemory => AFixedKindDoesNotFit() || LastCallFailed(from, error)
      case InvalidTaskConfiguration => true
      case _ => LastCallFailed(from, error)
    }

    // The same for one object, which may also be a CNode too large for any untyped.
    ghost predicate ExplainsObject(from: nat, kind: Kind, error: BootstrapError)
      reads slots, kernel
    {
      Explains(from, error) || (kind.CNodeKind? && error == NoKernelMemory && DoesNotFit(kind))
    }

    // A search that gave up explains why.
    lemma SearchExplains(before: seq<Event>, tried: seq<Event>, kind: Kind, slot: nat, error: BootstrapError)
      requires kernel.log == before + tried
      requires TriedInOrder(tried, kind, slot) && SearchEnded(tried, kind, Err(error))
      ensures ExplainsObject(|before|, kind, error) && error !in {NoFreeSlots, InvalidTaskConfiguration}
    {
      if tried == [] {
        FixedKindIsNotLargest(kind);
      } else {
        assert kernel.log[|kernel.log| - 1] == tried[|tried| - 1];
      }
    }

    // Retypes the first untyped that still has room into the next slot; a slot is taken only
    // if the object was made.
    method AllocateBlueprint(kind: Kind, ghost base: nat)
      returns (r: Result<usize, BootstrapError>, ghost tried: seq<Event>)
      requires Wired() && base <= kernel.s.nextId
      modifies slots, kernel
      ensures Wired() && Grew(base, old(Now()), Now()) && NoCollisions(old(Now()), Now())
      ensures r == Err(NoFreeSlots) <==> old(slots.start) >= slots.end
      ensures kernel.log == old(kernel.log) + tried
      ensures r == Err(NoFreeSlots) ==> tried == []
      ensures r != Err(NoFreeSlots) ==>
                && TriedInOrder(tried, kind, old(slots.start))
                && SearchEnded(tried, kind, if r.Ok? then Ok(()) else Err(r.error))
      ensures r.Err? ==> ExplainsObject(|old(kernel.log)|, kind, r.error) && r.error != InvalidTaskConfiguration
      ensures r.Err? ==> slots.State() == old(slots.State()) && kernel.s == old(kernel.s)
      ensures r.Ok? ==> r.value == old(slots.start) && slots.start == r.value + 1
                        && r.value !in old(kernel.s.root)
                        && kernel.s == Effect(kernel.platform, old(kernel.s), Retype(0, kind, r.value))
    {
      tried := [];
      var offered := slots.Offer();
      if offered.None? {
        r := Err(NoFreeSlots);
        return;
      }
      var found;
      found, tried := FirstFit(kind, offered.value);
      if found.Err? {
        SearchExplains(old(kernel.log), tried, kind, offered.value, found.error);
        NothingGrew(base, old(Now()), Now());
        r := Err(found.error);
      } else {
        slots.Commit();
        NewObjectGrew(kernel.platform, base, old(Now()), Now(), Retype(0, kind, offered.value));
        r := Ok(offered.value);
      }
    }

    // The same for the internal objects of a construction, which does not care which untyped
    // they came from.
    method AllocateObject(kind: Kind, ghost base: nat) returns (r: Result<usize, BootstrapError>)
      requires Wired() && base <= kernel.s.nextId
      modifies slots, kernel
      ensures Wired() && Grew(base, old(Now()), Now()) && NoCollisions(old(Now()), Now())
      ensures r.Err? ==> slots.State() == old(slots.State()) && kernel.s == old(kernel.s)
      ensures r.Err? ==> ExplainsObject(|old(kernel.log)|, kind, r.error) && r.error != InvalidTaskConfiguration
      ensures r.Ok? ==> r.value == old(slots.start) && slots.start == r.value + 1
                        && r.value !in old(kernel.s.root)
                        && kernel.s == Effect(kernel.platform, old(kernel.s), Retype(0, kind, r.value))
    {
      ghost var tried;
      r, tried := AllocateBlueprint(kind, base);
    }

    // One more call of a construction that started at `s0`, on objects that are ready for it.
    method Do(call: Call, ghost s0: Snapshot) returns (done: bool)
      requires Refusal(kernel.platform, kernel.s, call) == None && !call.Delete? && kernel.s.Consistent()
      requires NoDeletes(s0, Now()) && NoCollisions(s0, Now())
      modifies kernel
      ensures kernel.s.Consistent() && NoDeletes(s0, Now()) && NoCollisions(s0, Now())
      ensures done ==> kernel.s == Effect(kernel.platform, old(kernel.s), call)
      ensures !done ==> kernel.s == old(kernel.s)
      ensures !done && !call.SaveCaller? && !call.Retype? ==> LastCallFailed(|s0.log|, FailureOf(call, Failed))
    {
      var outcome := kernel.Invoke(call);
      done := outcome == Done;
    }

    // Copies a capability into the next root slot, with no more rights than asked for.
    method CopyCap(source: usize, rights: Rights, ghost base: nat) returns (r: Result<usize, BootstrapError>)
      requires Wired() && base <= kernel.s.nextId
      modifies slots, kernel
      ensures Wired() && Grew(base, old(Now()), Now()) && NoCollisions(old(Now()), Now())
      ensures r.Err? ==> slots.State() == old(slots.State()) && kernel.s == old(kernel.s)
      ensures r != Err(NoKernelMemory)
      ensures r.Err? ==> Explains(|old(kernel.log)|, r.error) && r.error != InvalidTaskConfiguration
      ensures r == Err(NoFreeSlots) <==> old(slots.start) >= slots.end
      ensures r.Ok? ==> r.value == old(slots.start) && slots.start == r.value + 1
                        && old(kernel.s).KindAt(source).Some?
                        && r.value !in old(kernel.s.root)
                        && kernel.s == Effect(kernel.platform, old(kernel.s), Kernels.CopyCap(source, rights, r.value))
    {
      var offered := slots.Offer();
      if offered.None? {
        return Err(NoFreeSlots);
      }
      var slot := offered.value;
      var outcome := kernel.Invoke(Kernels.CopyCap(source, rights, slot));
      if outcome != Done {
        NothingGrew(base, old(Now()), Now());
        return Err(CSpaceCreationFailed);
      }
      slots.Commit();
      NewObjectGrew(kernel.platform, base, old(Now()), Now(), Kernels.CopyCap(source, rights, slot));
      return Ok(slot);
    }

    method Checkpoint() returns (checkpoint: usize)
      ensures checkpoint == slots.start
    {
      checkpoint := slots.start;
    }

    method CommittedSlots(checkpoint: usize) returns (r: Result<Range, BootstrapError>)
      ensures slots.first <= checkpoint <= slots.start ==> r == Ok(Range(checkpoint, slots.start))
      ensures !(slots.first <= checkpoint <= slots.start) ==> r == Err(RollbackFailed)
    {
      match slots.State().AllocatedSince(checkpoint)
      case Some(range) => return Ok(range);
      case None => return Err(RollbackFailed);
    }

    // Deletes from the highest slot down and stops at the first slot the kernel keeps; the slots
    // from `low` on are gone.
    method DeleteRootSlots(range: Range) returns (r: Result<(), BootstrapError>, ghost low: nat)
      requires range.start <= range.end
      modifies kernel
      ensures old(kernel.log) <= kernel.log
      ensures range.start <= low <= range.end
      ensures r.Ok? ==> low == range.start
      ensures r.Err? ==> r.error == RollbackFailed && range.start < low
      ensures DeletedDownTo(kernel.log[|old(kernel.log)|..], low, range.end, r.Err?)
      ensures kernel.s == old(kernel.s).(root := old(kernel.s).root - Span(low, range.end))
      ensures old(kernel.s.Consistent()) ==> kernel.s.Consistent()
    {
      var index := range.end;
      while index > range.start
        invariant range.start <= index <= range.end
        invariant old(kernel.log) <= kernel.log
        invariant DeletedDownTo(kernel.log[|old(kernel.log)|..], index, range.end, false)
        invariant kernel.s == old(kernel.s).(root := old(kernel.s).root - Span(index, range.end))
        invariant old(kernel.s.Consistent()) ==> kernel.s.Consistent()
      {
        ghost var earlier := kernel.log[|old(kernel.log)|..];
        var outcome := kernel.Invoke(Delete(index - 1));
        assert kernel.log[|old(kernel.log)|..] == earlier + [Event(Delete(index - 1), outcome)];
        if outcome != Done {
          r, low := Err(RollbackFailed), index;
          return;
        }
        assert old(kernel.s).root - Span(index, range.end) - {index - 1}
            == old(kernel.s).root - Span(index - 1, range.end);
        index := index - 1;
      }
      r, low := Ok(()), index;
    }

    // Empties every slot taken since the checkpoint, and only then makes them reusable.
    method Rollback(checkpoint: usize) returns (r: Result<(), BootstrapError>, ghost low: nat)
      requires Wired()
      modifies slots, kernel
      ensures Wired()
      ensures old(kernel.log) <= kernel.log
      ensures !(slots.first <= checkpoint <= old(slots.start)) ==> r == Err(RollbackFailed) && Now() == old(Now())
      ensures slots.first <= checkpoint <= old(slots.start) ==>
                && checkpoint <= low <= old(slots.start)
                && (r.Ok? ==> low == checkpoint)
                && (r.Err? ==> r.error == RollbackFailed && checkpoint < low)
                && slots.State() == old(slots.State()).(start := if r.Ok? then checkpoint else old(slots.start))
                && DeletedDownTo(kernel.log[|old(kernel.log)|..], low, old(slots.start), r.Err?)
                && kernel.s == old(kernel.s).(root := old(kernel.s).root - Span(low, old(slots.start)))
    {
      low := 0;
      var range := CommittedSlots(checkpoint);
      if range.Err? {
        r := Err(range.error);
        return;
      }
      r, low := DeleteRootSlots(range.value);
      if r.Ok? {
        var done := slots.Rewind(checkpoint);
        if !done {
          assert false;
          r := Err(RollbackFailed);
        }
      }
    }

    // Frames, endpoints and notifications for the root task's own use.
    method Allocate(kind: Kind, ghost grants: seq<Grant>) returns (r: Result<usize, BootstrapError>)
      requires Valid(grants)
      modifies slots, kernel
      ensures r.Ok? ==> r.value == old(slots.start) && r.value !in old(kernel.s.root)
                        && kernel.s == Effect(kernel.platform, old(kernel.s), Retype(0, kind, r.value))
                        && Valid(grants + [Grant(ObjectOwner, r.value, r.value + 1)])
                        && Step(LedgerOf(old(Now()), grants), Granted(ObjectOwner),
                                LedgerOf(Now(), grants + [Grant(ObjectOwner, r.value, r.value + 1)]))
      ensures r.Err? ==> slots.State() == old(slots.State()) && kernel.s == old(kernel.s) && Valid(grants)
      ensures LeavesAlone({}, old(kernel.s), kernel.s)
    {
      ghost var was := LedgerOf(Now(), grants);
      ghost var tried;
      r, tried := AllocateBlueprint(kind, kernel.s.nextId);
      if r.Ok? {
        StepKeepsSound(was, Granted(ObjectOwner), LedgerOf(Now(), grants + [Grant(ObjectOwner, r.value, r.value + 1)]));
      }
    }

    // Takes empty slots out of general allocation for a pool that fills them itself.
    method ReserveEmptySlots(count: usize, ghost grants: seq<Grant>) returns (r: Option<Range>)
      requires Valid(grants)
      modifies slots
      ensures r == if old(slots.start) + count <= slots.end
                   then Some(Range(old(slots.start), old(slots.start) + count)) else None
      ensures slots.start == if r.Some? then r.value.end else old(slots.start)
      ensures r.Some? ==>
                && (forall k :: r.value.Contains(k) ==> k !in kernel.s.root)
                && Valid(grants + [Grant(PoolOwner, r.value.start, r.value.end)])
                && Step(LedgerOf(old(Now()), grants), Granted(PoolOwner),
                        LedgerOf(Now(), grants + [Grant(PoolOwner, r.value.start, r.value.end)]))
      ensures r.None? ==> Now() == old(Now())
    {
      ghost var was := LedgerOf(Now(), grants);
      r := slots.Reserve(count);
      if r.Some? {
        StepKeepsSound(was, Granted(PoolOwner),
                       LedgerOf(Now(), grants + [Grant(PoolOwner, r.value.start, r.value.end)]));
      }
    }

    // The frame behind a page of the initial image.
    method ImageFrame(imageStart: usize, address: usize) returns (r: Result<nat, BootstrapError>)
      ensures var page := kernel.platform.PageSize();
              r.Ok? <==> imageStart <= address && imageStart % page == 0 && address % page == 0
                         && Quotient(address - imageStart, page) < info.imageFrames.Len()
      ensures r.Err? ==> r.error == InvalidImageRegion
      ensures r.Ok? ==> info.imageFrames.Contains(r.value)
                        && imageStart + (r.value - info.imageFrames.start) * kernel.platform.PageSize() == address
    {
      if address < imageStart {
        return Err(InvalidImageRegion);
      }
      var page := kernel.platform.PageSize();
      var offset := address - imageStart;
      if imageStart % page != 0 || address % page != 0 || Quotient(offset, page) >= info.imageFrames.Len() {
        return Err(InvalidImageRegion);
      }
      MultiplesSubtract(address, imageStart, page);
      return Ok(info.imageFrames.start + Quotient(offset, page));
    }
  }
}
