/** Ownership of the slots of one child CSpace, and the one-shot receive reservations (ipc_state.rs). */
module SlotTracking {
  import opened Machine

  datatype SlotUse = Free | Reserved | Occupied

  datatype SlotError = NullSlot | OutOfRange | CapacityTooLarge | SlotInUse | InvalidReservation

  const MAX_SLOTS: nat := 256

  // The bookkeeping as a value.
  datatype Tracker = Tracker(capacity: nat, uses: seq<SlotUse>) {
    predicate Valid() {
      capacity <= MAX_SLOTS == |uses| && uses[0] == Free
    }

    // Slot zero is the null capability, and slots beyond the CNode do not exist.
    predicate Usable(slot: nat) {
      0 < slot < capacity && slot < |uses|
    }

    // What a claim on a slot is told: the first of three reasons against it, or none.
    function Claim(slot: nat): Result<(), SlotError>
      requires Valid()
    {
      if slot == 0 then Err(NullSlot)
      else if !Usable(slot) then Err(OutOfRange)
      else if uses[slot] != Free then Err(SlotInUse)
      else Ok(())
    }
  }

  class SlotTracker {
    const capacity: nat
    const states: array<SlotUse>

    ghost function Contents(): Tracker
      reads this, states
    {
      Tracker(capacity, states[..])
    }

    ghost predicate Valid()
      reads this, states
    {
      Contents().Valid()
    }

    constructor (capacity: nat)
      requires capacity <= MAX_SLOTS
      ensures Valid() && fresh(states)
      ensures Contents() == Tracker(capacity, seq(MAX_SLOTS, _ => Free))
    {
      this.capacity := capacity;
      states := new SlotUse[MAX_SLOTS](_ => Free);
    }

    static method TryNew(capacity: nat) returns (r: Result<SlotTracker, SlotError>)
      ensures r.Ok? <==> capacity <= MAX_SLOTS
      ensures r.Err? ==> r.error == CapacityTooLarge
      ensures r.Ok? ==> fresh(r.value) && fresh(r.value.states) && r.value.Valid()
                        && r.value.Contents() == Tracker(capacity, seq(MAX_SLOTS, _ => Free))
    {
      if capacity > MAX_SLOTS {
        return Err(CapacityTooLarge);
      }
      var tracker := new SlotTracker(capacity);
      return Ok(tracker);
    }

    // The checks that every claim on a free slot makes.
    method Check(slot: nat) returns (r: Result<(), SlotError>)
      requires Valid()
      ensures r == Contents().Claim(slot)
    {
      if slot == 0 {
        return Err(NullSlot);
      }
      if slot >= capacity || slot >= states.Length {
        return Err(OutOfRange);
      }
      if states[slot] != Free {
        return Err(SlotInUse);
      }
      return Ok(());
    }

    method MarkOccupied(slot: nat) returns (r: Result<(), SlotError>)
      requires Valid()
      modifies states
      ensures Valid()
      ensures r == old(Contents()).Claim(slot)
      ensures Contents() == if r.Ok? then old(Contents()).(uses := old(Contents()).uses[slot := Occupied])
                            else old(Contents())
    {
      r := Check(slot);
      if r.Ok? {
        states[slot] := Occupied;
      }
    }

    method Reserve(slot: nat) returns (r: Result<SlotReservation, SlotError>)
      requires Valid()
      modifies states
      ensures Valid()
      ensures old(Contents()).Claim(slot) == if r.Ok? then Ok(()) else Err(r.error)
      ensures r.Ok? ==> r.value == SlotReservation(this, slot)
      ensures Contents() == if r.Ok? then old(Contents()).(uses := old(Contents()).uses[slot := Reserved])
                            else old(Contents())
    {
      var checked := Check(slot);
      if checked.Err? {
        return Err(checked.error);
      }
      states[slot] := Reserved;
      return Ok(SlotReservation(this, slot));
    }

    // Ends a reservation: `commit` after a capability may have arrived, `cancel` otherwise.
    static method Settle(reservation: SlotReservation, received: bool) returns (r: Result<(), SlotError>)
      requires reservation.tracker.Valid() && 0 < reservation.slot < MAX_SLOTS
      modifies reservation.tracker.states
      ensures reservation.tracker.Valid()
      ensures var was := old(reservation.tracker.Contents());
              && (r.Ok? <==> was.uses[reservation.slot] == Reserved)
              && (r.Err? ==> r.error == InvalidReservation && reservation.tracker.Contents() == was)
              && (r.Ok? ==> reservation.tracker.Contents()
                            == was.(uses := was.uses[reservation.slot := if received then Occupied else Free]))
    {
      if reservation.tracker.states[reservation.slot] != Reserved {
        return Err(InvalidReservation);
      }
      reservation.tracker.states[reservation.slot] := if received then Occupied else Free;
      return Ok(());
    }
  }

  // The holder of a reservation is the only one that may change its slot.
  datatype SlotReservation = SlotReservation(tracker: SlotTracker, slot: nat)

  // A destination for at most one transferred capability: a slot of the CNode in the root slot
  // `root`, reserved in the tracker of that CNode.
  datatype ReceiveSlot = ReceiveSlot(root: usize, sizeBits: nat, reservation: SlotReservation) {
    ghost predicate Reserves()
      reads reservation.tracker, reservation.tracker.states
    {
      && reservation.tracker.Valid()
      && reservation.tracker.Contents().Usable(reservation.slot)
      && reservation.tracker.Contents().uses[reservation.slot] == Reserved
    }
  }

  // A child CSpace: what the tracker says, what the CNode holds, and the reservation that some
  // receive path holds, if any. While it is held, nothing else can reach the tracker.
  datatype ChildSpace = ChildSpace(tracker: Tracker, filled: set<nat>, held: Option<nat>) {
    // The tracker over-approximates: a slot it calls free is empty. (It may call a slot
    // occupied that is empty, because a capability that was only unwrapped as a badge counts.)
    ghost predicate Safe() {
      && tracker.Valid()
      && (forall k :: k in filled ==> tracker.Usable(k) && tracker.uses[k] == Occupied)
      && (held.Some? ==> tracker.Usable(held.value) && tracker.uses[held.value] == Reserved)
    }
  }

  datatype ChildOp =
    | Install(slot: nat, minted: bool)          // a delegation, and whether the kernel minted it
    | Offer(slot: nat)                          // `receive_slot`
    | Receive(extraCaps: nat, arrived: bool)    // a receive that reached the kernel
    | Dropped                                   // the reservation goes unsettled (`ReplyPending`)

  datatype ChildReply = Accepted | SlotRejected | PathInvalid | NotPossible

  // An operation on a child CSpace. `arrived` is the kernel's choice, and it can only put a
  // capability in the slot if the message reported one.
  function ChildStep(c: ChildSpace, op: ChildOp): (ChildSpace, ChildReply)
    requires c.tracker.Valid()
  {
    match op
    case Install(slot, minted) =>
      if c.held.Some? || !minted || slot in c.filled then (c, NotPossible)
      else
        var filled := c.filled + {slot};
        if c.tracker.Usable(slot) && c.tracker.uses[slot] == Free
        then (ChildSpace(c.tracker.(uses := c.tracker.uses[slot := Occupied]), filled, None), Accepted)
        else (c.(filled := filled), SlotRejected)
    case Offer(slot) =>
      if c.held.Some? then (c, NotPossible)
      else if c.tracker.Usable(slot) && c.tracker.uses[slot] == Free
      then (c.(tracker := c.tracker.(uses := c.tracker.uses[slot := Reserved]), held := Some(slot)), Accepted)
      else (c, SlotRejected)
    case Receive(extraCaps, arrived) =>
      if c.held.None? || (arrived && extraCaps == 0) then (c, NotPossible)
      else
        var slot := c.held.value;
        var filled := if arrived then c.filled + {slot} else c.filled;
        if slot < |c.tracker.uses| && slot != 0 && c.tracker.uses[slot] == Reserved
        then (ChildSpace(c.tracker.(uses := c.tracker.uses[slot := if extraCaps != 0 then Occupied else Free]),
                         filled, None), Accepted)
        else (c.(filled := filled, held := None), PathInvalid)
    case Dropped =>
      (c.(held := None), Accepted)
  }

  function ChildRun(c: ChildSpace, ops: seq<ChildOp>): ChildSpace
    requires c.tracker.Valid()
    decreases |ops|
  {
    if ops == [] then c else ChildRun(ChildStep(c, ops[0]).0, ops[1..])
  }

  // The kernel mints before the tracker is asked. So an installation is safe exactly when its
  // slot exists and no receive path has a claim on it.
  lemma InstallIsSafeIff(c: ChildSpace, slot: nat)
    requires c.Safe() && c.held == None && slot !in c.filled
    ensures ChildStep(c, Install(slot, true)).0.Safe()
       <==> c.tracker.Usable(slot) && c.tracker.uses[slot] != Reserved
  {
    var after := ChildStep(c, Install(slot, true)).0;
    assert slot in after.filled;
  }

  // Every installation names a slot that exists and is not reserved, as `validate` makes sure.
  predicate Validated(c: ChildSpace, ops: seq<ChildOp>)
    requires c.tracker.Valid()
    decreases |ops|
  {
    ops == [] ||
    ((ops[0].Install? ==> c.tracker.Usable(ops[0].slot) && c.tracker.uses[ops[0].slot] != Reserved)
     && Validated(ChildStep(c, ops[0]).0, ops[1..]))
  }

  // Over every run from a safe state: a filled slot is always tracked as occupied; a slot is
  // only offered if it exists, is not the null slot and is empty; and no receive ever finds its
  // reservation spoiled.
  lemma {:induction false} ChildRunIsSafe(c: ChildSpace, ops: seq<ChildOp>, next: ChildOp)
    requires c.Safe() && Validated(c, ops)
    ensures ChildRun(c, ops).Safe()
    ensures ChildStep(ChildRun(c, ops), next).1 != PathInvalid
    ensures next.Offer? && ChildStep(ChildRun(c, ops), next).1 == Accepted ==>
              0 < next.slot < c.tracker.capacity && next.slot !in ChildRun(c, ops).filled
    ensures ChildRun(c, ops).tracker.capacity == c.tracker.capacity
    decreases |ops|
  {
    if ops != [] {
      ChildRunIsSafe(ChildStep(c, ops[0]).0, ops[1..], next);
    }
  }

  // A free slot stays free while nothing is installed in it and it is not offered again.
  lemma {:induction false} FreeSlotStays(c: ChildSpace, slot: nat, ops: seq<ChildOp>)
    requires c.Safe() && Validated(c, ops)
    requires c.tracker.Usable(slot) && c.tracker.uses[slot] == Free
    requires forall i :: 0 <= i < |ops| && (ops[i].Install? || ops[i].Offer?) ==> ops[i].slot != slot
    ensures var later := ChildRun(c, ops);
            later.Safe() && later.tracker.Usable(slot) && later.tracker.uses[slot] == Free
    decreases |ops|
  {
    if ops != [] {
      ChildRunIsSafe(c, ops[..1], ops[0]);
      assert ChildRun(c, ops[..1]) == ChildStep(c, ops[0]).0;
      assert forall i :: 0 <= i < |ops[1..]| ==> ops[1..][i] == ops[i + 1];
      FreeSlotStays(ChildStep(c, ops[0]).0, slot, ops[1..]);
    }
  }

  lemma {:induction false} OccupiedSlotStays(c: ChildSpace, slot: nat, ops: seq<ChildOp>)
    requires c.Safe() && Validated(c, ops)
    requires c.tracker.Usable(slot) && c.tracker.uses[slot] == Occupied
    ensures var later := ChildRun(c, ops);
            later.Safe() && later.tracker.Usable(slot) && later.tracker.uses[slot] == Occupied
    decreases |ops|
  {
    if ops != [] {
      ChildRunIsSafe(c, ops[..1], ops[0]);
      assert ChildRun(c, ops[..1]) == ChildStep(c, ops[0]).0;
      OccupiedSlotStays(ChildStep(c, ops[0]).0, slot, ops[1..]);
    }
  }

  // A receive that reported no capability gives its slot back: whatever happens in other slots
  // afterwards, it is accepted when offered again. One that reported a capability takes it.
  lemma SlotAfterReceive(c: ChildSpace, slot: nat, extraCaps: nat, arrived: bool, ops: seq<ChildOp>)
    requires c.Safe() && c.held == Some(slot) && (arrived ==> extraCaps > 0)
    requires Validated(ChildStep(c, Receive(extraCaps, arrived)).0, ops)
    requires forall i :: 0 <= i < |ops| && (ops[i].Install? || ops[i].Offer?) ==> ops[i].slot != slot
    ensures var later := ChildRun(ChildStep(c, Receive(extraCaps, arrived)).0, ops);
            && later.Safe()
            && (later.held == None ==> (ChildStep(later, Offer(slot)).1 == Accepted <==> extraCaps == 0))
  {
    var after := ChildStep(c, Receive(extraCaps, arrived)).0;
    ChildRunIsSafe(c, [], Receive(extraCaps, arrived));
    assert after.Safe();
    if extraCaps == 0 {
      FreeSlotStays(after, slot, ops);
    } else {
      OccupiedSlotStays(after, slot, ops);
    }
  }

  // A receive turned away because a reply is pending drops its reservation: the slot stays
  // reserved, and no later operation of the run can offer it again.
  lemma {:induction false} DroppedReservationStays(c: ChildSpace, slot: nat, ops: seq<ChildOp>)
    requires c.Safe() && Validated(c, ops)
    requires c.tracker.Usable(slot) && c.tracker.uses[slot] == Reserved && c.held != Some(slot)
    ensures var later := ChildRun(c, ops);
            && later.Safe()
            && later.tracker.Usable(slot) && later.tracker.uses[slot] == Reserved
            && slot !in later.filled
            && ChildStep(later, Offer(slot)).1 != Accepted
    decreases |ops|
  {
    if ops != [] {
      ChildRunIsSafe(c, ops[..1], ops[0]);
      assert ChildRun(c, ops[..1]) == ChildStep(c, ops[0]).0;
      DroppedReservationStays(ChildStep(c, ops[0]).0, slot, ops[1..]);
    }
  }
}
