/** Endpoints, received messages and deferred replies (ipc.rs). */
module Ipc {
  import opened Machine
  import opened Kernels
  import opened Messages
  import opened SlotTracking
  import opened ReplyPools
  import opened ReplyAuthority
  import opened Boot
  import opened Ownership
  import opened PoolBitmaps
  import DeferredReplies

  // What one receive finds: the kernel's description of the message, its raw badge, the
  // registers, the right to answer that came with it, and whether a capability went into the
  // configured slot.
  datatype Delivery = Delivery(
    info: MessageInfo, badge: usize, regs: seq<usize>, right: Option<nat>, arrived: bool)

  datatype ReceivedMessage = ReceivedMessage(endpoint: Endpoint, badge: Option<usize>, message: Message)

  datatype DeferredReply = DeferredReply(pool: ReplyPool, slot: usize)

  // A badge of zero marks unbadged traffic.
  function BadgeOf(raw: usize): Option<usize> {
    if raw == 0 then None else Some(raw)
  }

  // The state of the kernel after a receive: an older right to answer is gone, and a
  // capability can only arrive where the receive path points, if the message brought one.
  ghost predicate ReceivedInto(was: KernelState, now: KernelState, slot: Option<ReceiveSlot>, d: Delivery) {
    && (d.right == None || d.right == Some(was.nextRight))
    && now.(cnodes := was.cnodes) == was.(caller := d.right, nextRight := was.nextRight + 1)
    && (!d.arrived ==> now.cnodes == was.cnodes)
    && (d.arrived ==>
          && d.info.extraCaps != 0 && slot.Some?
          && was.HasCNode(slot.value.root)
          && var id := was.root[slot.value.root].id;
             && slot.value.reservation.slot !in was.cnodes[id]
             && id in now.cnodes && slot.value.reservation.slot in now.cnodes[id]
             && now.cnodes == was.cnodes[id := now.cnodes[id]]
             && now.cnodes[id] - {slot.value.reservation.slot} == was.cnodes[id])
  }

  // The CNode that a receive put a capability into, if it did.
  ghost function Touched(was: KernelState, slot: Option<ReceiveSlot>, d: Delivery): set<nat> {
    if d.arrived && slot.Some? && was.HasCNode(slot.value.root) then {was.root[slot.value.root].id} else {}
  }

  // A receive changes no object but that one, and no capability to an object.
  lemma ReceiveLeavesAlone(was: KernelState, now: KernelState, slot: Option<ReceiveSlot>, d: Delivery)
    requires ReceivedInto(was, now.(caller := d.right), slot, d)
    ensures LeavesAlone(Touched(was, slot, d), was, now)
  {
    if d.arrived {
      var id := was.root[slot.value.root].id;
      assert forall k :: k in was.cnodes[id] ==> k in now.cnodes[id] - {slot.value.reservation.slot};
    }
  }

  // A capability arrives in the CNode and the slot that the receive path names, and nowhere else:
  // so the child machine's filled slots are those of the CNode.
  lemma ReceiveFillsItsSlot(was: KernelState, now: KernelState, slot: ReceiveSlot, d: Delivery)
    requires ReceivedInto(was, now.(caller := d.right), Some(slot), d) && was.HasCNode(slot.root)
    ensures now.HasCNode(slot.root) && now.root[slot.root] == was.root[slot.root]
    ensures var filled := was.cnodes[was.root[slot.root].id].Keys;
            now.cnodes[now.root[slot.root].id].Keys
              == if d.arrived then filled + {slot.reservation.slot} else filled
  {
    if d.arrived {
      var id := was.root[slot.root].id;
      assert now.cnodes[id].Keys == (now.cnodes[id] - {slot.reservation.slot}).Keys + {slot.reservation.slot};
    }
  }

  // A receive that the kernel completes with some message.
  method KernelReceive(k: Kernel, buffer: IpcBuffer, slot: Option<ReceiveSlot>)
    returns (info: MessageInfo, badge: usize, ghost d: Delivery)
    requires buffer.Valid()
    modifies k, buffer.msgRegs, buffer.capsOrBadges
    ensures d.info == info && d.badge == badge && d.regs == buffer.msgRegs[..]
    ensures ReceivedInto(old(k.s), k.s, slot, d) && k.log == old(k.log)
    ensures old(k.s.Consistent()) ==> k.s.Consistent()
  {
    info := *;
    badge := *;
    for i := 0 to MESSAGE_CAPACITY
      modifies buffer.msgRegs
    {
      var word: usize := *;
      buffer.msgRegs[i] := word;
    }
    for i := 0 to EXTRA_CAPACITY
      modifies buffer.capsOrBadges
    {
      var word: usize := *;
      buffer.capsOrBadges[i] := word;
    }
    var right: Option<nat> := None;
    if * {
      right := Some(k.s.nextRight);
    }
    k.s := k.s.(caller := right, nextRight := k.s.nextRight + 1);
    var arrived := false;
    if slot.Some? && info.extraCaps != 0 && k.s.HasCNode(slot.value.root) {
      var id := k.s.root[slot.value.root].id;
      var held: map<nat, Cap> := k.s.cnodes[id];
      if slot.value.reservation.slot !in held {
        if * {
          var cap: Cap := *;
          held := held[slot.value.reservation.slot := cap];
          k.s := k.s.(cnodes := k.s.cnodes[id := held]);
          arrived := true;
        }
      }
    }
    d := Delivery(info, badge, buffer.msgRegs[..], right, arrived);
  }

  // A non-blocking receive may also find nobody; it then reports no badge and an empty message.
  method KernelTryReceive(k: Kernel, buffer: IpcBuffer, slot: Option<ReceiveSlot>)
    returns (info: MessageInfo, badge: usize, ghost d: Delivery)
    requires buffer.Valid()
    modifies k, buffer.msgRegs, buffer.capsOrBadges
    ensures d.info == info && d.badge == badge && d.regs == buffer.msgRegs[..]
    ensures ReceivedInto(old(k.s), k.s, slot, d) && k.log == old(k.log)
    ensures old(k.s.Consistent()) ==> k.s.Consistent()
  {
    if * {
      info, badge := MessageInfo(0, 0, 0, 0), 0;
      k.s := k.s.(caller := None, nextRight := k.s.nextRight + 1);
      d := Delivery(info, badge, buffer.msgRegs[..], None, false);
    } else {
      info, badge, d := KernelReceive(k, buffer, slot);
    }
  }

  // An answer as the kernel sees it: whom it reaches, if anyone, and how it is described.
  datatype Answer = Answer(right: Option<nat>, info: MessageInfo)

  // Sends an answer to whoever the kernel's implicit right names, if anyone.
  method KernelReply(k: Kernel, info: MessageInfo) returns (ghost answer: Answer)
    modifies k
    ensures answer == Answer(old(k.s.caller), info)
    ensures k.s == old(k.s).(caller := None) && k.log == old(k.log)
  {
    answer := Answer(k.s.caller, info);
    k.s := k.s.(caller := None);
  }

  // Ends a receive path: occupied if the message reported any capability at all.
  method FinishSlot(slot: ReceiveSlot, received: bool) returns (r: Result<(), IpcError>)
    requires slot.Reserves()
    modifies slot.reservation.tracker.states
    ensures r.Ok?
    ensures slot.reservation.tracker.Valid()
    ensures var was := old(slot.reservation.tracker.Contents());
            slot.reservation.tracker.Contents()
              == was.(uses := was.uses[slot.reservation.slot := if received then Occupied else Free])
  {
    var settled := SlotTracker.Settle(slot.reservation, received);
    if settled.Err? {
      assert false;
      return Err(InvalidReceivePath);
    }
    return Ok(());
  }

  // Afterwards the slot is occupied exactly if the message reported a capability, and free
  // otherwise; no other slot changed. The child CSpace sees the receive as one step of its own.
  twostate predicate SlotSettled(slot: ReceiveSlot, d: Delivery)
    reads slot.reservation.tracker, slot.reservation.tracker.states
  {
    && old(slot.Reserves())
    && slot.reservation.tracker.Valid()
    && slot.reservation.tracker.Contents().uses[slot.reservation.slot]
       == (if d.info.extraCaps == 0 then Free else Occupied)
    && (forall k :: 0 <= k < MAX_SLOTS && k != slot.reservation.slot ==>
          slot.reservation.tracker.Contents().uses[k] == old(slot.reservation.tracker.Contents()).uses[k])
    && forall filled: set<nat> ::
         ChildStep(ChildSpace(old(slot.reservation.tracker.Contents()), filled, Some(slot.reservation.slot)),
                   SlotTracking.Receive(d.info.extraCaps, d.arrived))
         == (ChildSpace(slot.reservation.tracker.Contents(),
                        if d.arrived then filled + {slot.reservation.slot} else filled, None), Accepted)
  }

  class Endpoint {
    var implicitReplyPending: bool
    ghost var port: Port

    ghost predicate Valid()
      reads this
    {
      port.Conserved() && (implicitReplyPending <==> port.live.Some?)
    }

    constructor ()
      ensures Valid() && port == IDLE && !implicitReplyPending
    {
      implicitReplyPending, port := false, IDLE;
    }

    // The flag is set exactly while a message is live, and the endpoint's history and the
    // kernel's rights move as `PortStep` and `RightsAfter` say.
    twostate predicate Steps(k: Kernel, op: PortOp)
      reads this, k
    {
      && Valid()
      && (port, k.s.caller) == PortStep(old(port), old(k.s.caller), op)
      && IsRight(op, old(k.s.nextRight))
      && k.s.nextRight == RightsAfter(old(port), op, old(k.s.nextRight))
    }

    // Answers an unwanted message with an empty one, which uses up the right to answer.
    method ClearImplicitReply(k: Kernel) returns (ghost answer: Answer)
      modifies this`implicitReplyPending, k
      ensures answer == Answer(old(k.s.caller), MessageInfo(0, 0, 0, 0))
      ensures !implicitReplyPending && k.s == old(k.s).(caller := None) && k.log == old(k.log)
    {
      answer := KernelReply(k, MessageInfo(0, 0, 0, 0));
      implicitReplyPending := false;
    }

    // What a received message becomes, once its receive path is settled.
    method Accept(k: Kernel, buffer: IpcBuffer, info: MessageInfo, rawBadge: usize, capacity: nat)
      returns (r: Result<ReceivedMessage, IpcError>)
      requires buffer.Valid() && capacity <= 1
      modifies this`implicitReplyPending, k
      ensures r.Ok? <==> info.extraCaps <= capacity && info.length <= MESSAGE_CAPACITY
      ensures r.Ok? ==>
                && r.value.endpoint == this && r.value.badge == BadgeOf(rawBadge)
                && (r.value.badge.Some? <==> rawBadge != 0) && (r.value.badge.Some? ==> r.value.badge.value == rawBadge)
                && Ok(r.value.message) == Read(info, buffer.msgRegs[..])
                && r.value.message.Words() == buffer.msgRegs[..info.length]
                && k.s == old(k.s) && implicitReplyPending == old(implicitReplyPending)
      ensures r.Err? ==> r.error == if info.extraCaps > capacity
                                    then ReceiveCapacityExceeded(info.extraCaps, capacity)
                                    else MessageTooLong(info.length, MESSAGE_CAPACITY)
      ensures r.Err? ==> k.s == old(k.s).(caller := None) && !implicitReplyPending
      ensures k.log == old(k.log)
    {
      if info.extraCaps > capacity {
        ghost var answer := ClearImplicitReply(k);
        return Err(ReceiveCapacityExceeded(info.extraCaps, capacity));
      }
      var message := Received(info, buffer);
      if message.Err? {
        ghost var answer := ClearImplicitReply(k);
        return Err(message.error);
      }
      return Ok(ReceivedMessage(this, BadgeOf(rawBadge), message.value));
    }

    // What follows once the kernel has delivered a message: the receive path is settled, and then
    // the message is accepted or turned away.
    method Complete(k: Kernel, buffer: IpcBuffer, slot: Option<ReceiveSlot>, info: MessageInfo, rawBadge: usize,
                    ghost d: Delivery)
      returns (r: Result<ReceivedMessage, IpcError>)
      requires buffer.Valid() && (slot.Some? ==> slot.value.Reserves())
      requires port.Conserved() && port.live.None? && implicitReplyPending
      requires d.info == info && d.badge == rawBadge && d.regs == buffer.msgRegs[..] && k.s.caller == d.right
      requires d.arrived ==> d.info.extraCaps != 0
      modifies this, k
      modifies if slot.Some? then {slot.value.reservation.tracker.states} else {}
      ensures Valid() && implicitReplyPending == r.Ok?
      ensures port == PortStep(old(port), None, ReplyAuthority.Receive(d.right, r.Ok?)).0
      ensures var capacity := if slot.Some? then 1 else 0;
              && (r.Ok? <==> d.info.extraCaps <= capacity && d.info.length <= MESSAGE_CAPACITY)
              && (r.Ok? ==> r.value.endpoint == this && r.value.badge == BadgeOf(d.badge)
                            && |d.regs| == MESSAGE_CAPACITY && Ok(r.value.message) == Read(d.info, d.regs))
              && (r.Err? ==> r.error == if d.info.extraCaps > capacity
                                        then ReceiveCapacityExceeded(d.info.extraCaps, capacity)
                                        else MessageTooLong(d.info.length, MESSAGE_CAPACITY))
      ensures slot.Some? ==> SlotSettled(slot.value, d)
      ensures k.s == (if r.Ok? then old(k.s) else old(k.s).(caller := None)) && k.log == old(k.log)
    {
      if slot.Some? {
        var settled := FinishSlot(slot.value, info.extraCaps != 0);
        if settled.Err? {
          assert false;
          return Err(InvalidReceivePath);
        }
      }
      r := Accept(k, buffer, info, rawBadge, if slot.Some? then 1 else 0);
      port := PortStep(port, None, ReplyAuthority.Receive(d.right, r.Ok?)).0;
    }

    // Receives one message, with at most one capability. While an earlier message is live the
    // receive is turned away, and a slot supplied with it stays reserved.
    method Receive(k: Kernel, buffer: IpcBuffer, slot: Option<ReceiveSlot>)
      returns (r: Result<ReceivedMessage, IpcError>, ghost d: Delivery)
      requires Valid() && buffer.Valid() && (slot.Some? ==> slot.value.Reserves())
      modifies this, k, buffer.msgRegs, buffer.capsOrBadges
      modifies if slot.Some? then {slot.value.reservation.tracker.states} else {}
      ensures r == Err(ReplyPending) <==> old(implicitReplyPending)
      ensures r == Err(ReplyPending) ==> k.s == old(k.s) && port == old(port)
                                         && (slot.Some? ==> slot.value.Reserves())
      ensures Steps(k, ReplyAuthority.Receive(if r == Err(ReplyPending) then None else d.right, r.Ok?))
      ensures r != Err(ReplyPending) ==>
                var capacity := if slot.Some? then 1 else 0;
                && (r.Ok? <==> d.info.extraCaps <= capacity && d.info.length <= MESSAGE_CAPACITY)
                && (r.Ok? ==> r.value.endpoint == this && r.value.badge == BadgeOf(d.badge)
                              && |d.regs| == MESSAGE_CAPACITY && Ok(r.value.message) == Read(d.info, d.regs))
                && (r.Err? ==> r.error == if d.info.extraCaps > capacity
                                          then ReceiveCapacityExceeded(d.info.extraCaps, capacity)
                                          else MessageTooLong(d.info.length, MESSAGE_CAPACITY))
                && (slot.Some? ==> SlotSettled(slot.value, d))
      ensures r != Err(ReplyPending) ==> ReceivedInto(old(k.s), k.s.(caller := d.right), slot, d)
      ensures r != Err(ReplyPending) ==>
                implicitReplyPending == r.Ok? && k.s.caller == if r.Ok? then d.right else None
      ensures k.s.root == old(k.s.root) && (old(k.s.Consistent()) ==> k.s.Consistent())
    {
      if implicitReplyPending {
        r := Err(ReplyPending);
        d := Delivery(MessageInfo(0, 0, 0, 0), 0, [], None, false);
        return;
      }
      implicitReplyPending := true;
      var info, rawBadge;
      info, rawBadge, d := KernelReceive(k, buffer, slot);
      r := Complete(k, buffer, slot, info, rawBadge, d);
    }

    // Receives without blocking. An unbadged, empty message without capabilities is reported as
    // none, and whatever right came with it is neither used nor cleared.
    method TryReceive(k: Kernel, buffer: IpcBuffer, slot: Option<ReceiveSlot>)
      returns (r: Result<Option<ReceivedMessage>, IpcError>, ghost d: Delivery)
      requires Valid() && buffer.Valid() && (slot.Some? ==> slot.value.Reserves())
      modifies this, k, buffer.msgRegs, buffer.capsOrBadges
      modifies if slot.Some? then {slot.value.reservation.tracker.states} else {}
      ensures r == Err(ReplyPending) <==> old(implicitReplyPending)
      ensures r == Err(ReplyPending) ==> k.s == old(k.s) && port == old(port)
                                         && (slot.Some? ==> slot.value.Reserves())
      ensures r != Err(ReplyPending) ==>
                var none := d.badge == 0 && d.info.length == 0 && d.info.extraCaps == 0;
                var capacity := if slot.Some? then 1 else 0;
                && (r == Ok(None) <==> none)
                && (none ==> Steps(k, ReceiveNothing(d.right)))
                && (!none ==> Steps(k, ReplyAuthority.Receive(d.right, r.Ok?)))
                && (r.Ok? <==> d.info.extraCaps <= capacity && d.info.length <= MESSAGE_CAPACITY)
                && (r.Ok? && r.value.Some? ==>
                      && r.value.value.endpoint == this && r.value.value.badge == BadgeOf(d.badge)
                      && |d.regs| == MESSAGE_CAPACITY && Ok(r.value.value.message) == Read(d.info, d.regs))
                && (slot.Some? ==> SlotSettled(slot.value, d))
      ensures r != Err(ReplyPending) ==> ReceivedInto(old(k.s), k.s.(caller := d.right), slot, d)
      ensures r != Err(ReplyPending) ==>
                && implicitReplyPending == (r.Ok? && r.value.Some?)
                && k.s.caller == if r.Ok? then d.right else None
      ensures Valid() && k.s.root == old(k.s.root) && (old(k.s.Consistent()) ==> k.s.Consistent())
    {
      if implicitReplyPending {
        r := Err(ReplyPending);
        d := Delivery(MessageInfo(0, 0, 0, 0), 0, [], None, false);
        return;
      }
      implicitReplyPending := true;
      var info, rawBadge;
      info, rawBadge, d := KernelTryReceive(k, buffer, slot);
      if rawBadge == 0 && info.length == 0 && info.extraCaps == 0 {
        implicitReplyPending := false;
        if slot.Some? {
          var settled := FinishSlot(slot.value, false);
          if settled.Err? {
            assert false;
            r := Err(InvalidReceivePath);
            return;
          }
        }
        r := Ok(None);
        return;
      }
      var accepted := Complete(k, buffer, slot, info, rawBadge, d);
      r := if accepted.Ok? then Ok(Some(accepted.value)) else Err(accepted.error);
    }
  }

  // The endpoints of one receiving thread and the kernel's rights, as a world of `ReplyAuthority`.
  ghost function WorldOf(endpoints: seq<Endpoint>, k: Kernel): World
    reads endpoints, k
  {
    World(seq(|endpoints|, i requires 0 <= i < |endpoints| reads endpoints => endpoints[i].port),
          k.s.caller, k.s.nextRight)
  }

  // An operation on one of the endpoints is one step of that world, so that histories of the
  // methods below and above are its runs.
  twostate lemma StepIsWorldStep(endpoints: seq<Endpoint>, e: nat, k: Kernel, op: PortOp)
    requires e < |endpoints| && endpoints[e].Steps(k, op)
    requires forall i :: 0 <= i < |endpoints| && i != e ==> endpoints[i].port == old(endpoints[i].port)
    ensures IsRight(op, old(WorldOf(endpoints, k)).nextRight)
    ensures WorldOf(endpoints, k) == WorldStep(old(WorldOf(endpoints, k)), WorldOp(e, op))
  {
    assert WorldOf(endpoints, k).ports == WorldStep(old(WorldOf(endpoints, k)), WorldOp(e, op)).ports;
  }

  // A received message is consumed by one of the following three. Ownership makes sure that its
  // endpoint still waits for that.

  // Answers with the implicit right.
  method Reply(received: ReceivedMessage, k: Kernel, buffer: IpcBuffer, message: Message)
    returns (ghost answered: Option<nat>, info: MessageInfo)
    requires received.endpoint.Valid() && received.endpoint.implicitReplyPending
    requires message.Valid() && buffer.Valid()
    modifies received.endpoint, k, buffer.msgRegs, buffer.capsOrBadges
    ensures answered == old(k.s.caller)
    ensures received.endpoint.Steps(k, ReplyAuthority.Reply) && !received.endpoint.implicitReplyPending
    ensures info == MessageInfo(message.tag, message.length, message.extraCaps, 0)
    ensures buffer.msgRegs[..] == Overwritten(message.Words(), old(buffer.msgRegs[..]))
    ensures buffer.capsOrBadges[..]
         == Overwritten(message.capabilities[..message.extraCaps], old(buffer.capsOrBadges[..]))
    ensures k.s == old(k.s).(caller := None) && k.log == old(k.log)
  {
    info := Prepare(message, buffer);
    ghost var answer := KernelReply(k, info);
    answered := answer.right;
    received.endpoint.implicitReplyPending := false;
    received.endpoint.port := PortStep(received.endpoint.port, None, ReplyAuthority.Reply).0;
  }

  // Gives up the right, if there was one.
  method Finish(received: ReceivedMessage, k: Kernel) returns (ghost answer: Answer)
    requires received.endpoint.Valid() && received.endpoint.implicitReplyPending
    modifies received.endpoint, k
    ensures received.endpoint.Steps(k, ReplyAuthority.Finish) && !received.endpoint.implicitReplyPending
    ensures answer == Answer(old(k.s.caller), MessageInfo(0, 0, 0, 0))
    ensures k.s == old(k.s).(caller := None) && k.log == old(k.log)
  {
    answer := received.endpoint.ClearImplicitReply(k);
    received.endpoint.port := PortStep(received.endpoint.port, None, ReplyAuthority.Finish).0;
  }

  ghost function WithRight(root: map<nat, Cap>, caller: Option<nat>, slot: nat): map<nat, Cap> {
    if caller.Some? then root[slot := ReplyCap(caller.value)] else root
  }

  // The root CNode after a deferral: if there was a right, it is now in `slot`.
  ghost function RootWithSaved(s: KernelState, slot: nat): map<nat, Cap> {
    WithRight(s.root, s.caller, slot)
  }

  ghost function OutcomeOfSave(ok: bool, caller: Option<nat>): DeferredReplies.SaveOutcome {
    if !ok then DeferredReplies.SaveFailed
    else if caller.Some? then DeferredReplies.SavedRight(caller.value) else DeferredReplies.SavedNothing
  }

  // The pool's slots are among those that the root task's bookkeeping has granted.
  ghost predicate OwnsPool(b: Bootstrap, grants: seq<Grant>, k: Kernel, pool: ReplyPool)
    reads b.slots, b.kernel
  {
    b.kernel == k && b.Valid(grants) && IsGranted(pool, LedgerOf(b.Now(), grants))
  }

  // An operation on the pool is one step of the ownership ledger, and changes no object and no
  // capability to an object.
  twostate predicate PoolMoves(b: Bootstrap, grants: seq<Grant>, k: Kernel, pool: ReplyPool, change: Change)
    reads b.slots, b.kernel, k
  {
    && OwnsPool(b, grants, k, pool)
    && Step(LedgerOf(old(b.Now()), grants), change, LedgerOf(b.Now(), grants))
    && LeavesAlone({}, old(k.s), k.s)
  }

  // A free slot of the pool is empty, and the history moves as the kernel decides about it.
  lemma SaveStep(slots: Range, was: DeferredReplies.PoolState, root: map<nat, Cap>, caller: Option<nat>, ok: bool)
    requires was.Sound() && was.capacity == slots.Len() && HoldsRights(slots, was.filled, root)
    requires FreeOffset(was.occupied, was.capacity).Some?
    ensures var offset := FreeOffset(was.occupied, was.capacity).value;
            var next := DeferredReplies.PoolStep(was, DeferredReplies.Defer(OutcomeOfSave(ok, caller)));
            && next.Sound() && next.capacity == was.capacity
            && offset < was.capacity && !Bits.Bit(was.occupied, offset) && slots.start + offset !in root
            && if ok then
                 && next.occupied == WithBit(was.occupied, offset) && offset in next.tokens
                 && HoldsRights(slots, next.filled, WithRight(root, caller, slots.start + offset))
               else
                 next == was && WithoutBit(WithBit(was.occupied, offset), offset) == was.occupied
  {
    var offset := FreeOffset(was.occupied, was.capacity).value;
    FreeOffsetIsLeast(was.occupied, was.capacity);
    DeferredReplies.PoolStepIsSound(was, DeferredReplies.Defer(OutcomeOfSave(ok, caller)));
    DeferredReplies.FailedSaveRestores(was.occupied, offset);
    if caller.Some? {
      RightAdded(slots, was.filled, root, offset, caller.value);
    }
  }

  lemma SaveCallerEffect(p: Platform, s: KernelState, slot: nat)
    requires slot !in s.root
    ensures Effect(p, s, SaveCaller(slot)) == s.(root := RootWithSaved(s, slot), caller := None)
  {
  }

  // The kernel's move of the right into a pool slot that was just reserved; if it refuses, the
  // slot is free again.
  method SaveInto(k: Kernel, pool: ReplyPool, slot: usize) returns (r: Result<usize, IpcError>)
    requires pool.IsBitmap() && pool.history.Sound() && pool.history.capacity == pool.slots.Len()
    requires HoldsRights(pool.slots, pool.history.filled, k.s.root)
    requires pool.slots.Contains(slot)
    requires FreeOffset(pool.history.occupied, pool.slots.Len()) == Some(slot - pool.slots.start)
    requires pool.occupied == WithBit(pool.history.occupied, slot - pool.slots.start)
    modifies pool, k
    ensures IsBacked(pool, k.s)
    ensures pool.history == DeferredReplies.PoolStep(old(pool.history),
              DeferredReplies.Defer(OutcomeOfSave(r.Ok?, old(k.s.caller))))
    ensures |k.log| == |old(k.log)| + 1 && k.log[|old(k.log)|].call.SaveCaller?
    ensures if k.log[|old(k.log)|].outcome == Done then r.Ok? else r == Err(NoReplyAuthority)
    ensures r.Err? ==> pool.history == old(pool.history) && k.s == old(k.s)
    ensures r.Ok? ==>
              && r.value == slot && pool.HasToken(slot) && slot !in old(k.s.root)
              && k.s == old(k.s).(root := RootWithSaved(old(k.s), slot), caller := None)
  {
    ghost var was, caller := pool.history, k.s.caller;
    SaveStep(pool.slots, was, k.s.root, caller, true);
    SaveStep(pool.slots, was, k.s.root, caller, false);
    SaveCallerEffect(k.platform, k.s, slot);
    var saved := k.Invoke(SaveCaller(slot));
    pool.history := DeferredReplies.PoolStep(was, DeferredReplies.Defer(OutcomeOfSave(saved == Done, caller)));
    if saved != Done {
      pool.Release(slot);
      return Err(NoReplyAuthority);
    }
    return Ok(slot);
  }

  // The root's part of a deferral: a pool slot, and the kernel's move of the right into it.
  method SaveRight(k: Kernel, pool: ReplyPool) returns (r: Result<usize, IpcError>)
    requires IsBacked(pool, k.s)
    modifies pool, k
    ensures IsBacked(pool, k.s)
    ensures pool.history == DeferredReplies.PoolStep(old(pool.history),
              DeferredReplies.Defer(OutcomeOfSave(r.Ok?, old(k.s.caller))))
    ensures r == Err(NoReplySlots) <==> old(FreeOffset(pool.occupied, pool.slots.Len())) == None
    ensures r == Err(NoReplySlots) ==> k.log == old(k.log)
    ensures r != Err(NoReplySlots) ==>
              && |k.log| == |old(k.log)| + 1 && k.log[|old(k.log)|].call.SaveCaller?
              && (if k.log[|old(k.log)|].outcome == Done then r.Ok? else r == Err(NoReplyAuthority))
    ensures r.Err? ==> pool.history == old(pool.history) && k.s == old(k.s)
    ensures r.Ok? ==>
              && pool.slots.Contains(r.value) && !old(pool.Holds(r.value)) && pool.HasToken(r.value)
              && r.value !in old(k.s.root)
              && (forall s: nat :: pool.slots.start <= s < r.value ==> old(pool.Holds(s)))
              && k.s == old(k.s).(root := RootWithSaved(old(k.s), r.value), caller := None)
  {
    var slot := pool.Reserve();
    if slot == None {
      return Err(NoReplySlots);
    }
    r := SaveInto(k, pool, slot.value);
  }

  // What a deferral leaves behind: a right in `slot`, or at least a cleared one.
  lemma DeferralStep(s: Snapshot, t: Snapshot, grants: seq<Grant>, slot: Option<nat>)
    requires LedgerOf(s, grants).Sound() && s.kernel.Consistent() && t.slots == s.slots
    requires slot.Some? ==> LedgerOf(s, grants).InPool(slot.value) && slot.value !in s.kernel.root
    requires t.kernel == s.kernel.(
               root := if slot.Some? then RootWithSaved(s.kernel, slot.value) else s.kernel.root, caller := None)
    ensures LedgerOf(t, grants).Sound() && t.kernel.Consistent() && LeavesAlone({}, s.kernel, t.kernel)
    ensures Step(LedgerOf(s, grants), if slot.Some? then PoolSlot(slot.value) else Unchanged, LedgerOf(t, grants))
  {
    if slot.Some? {
      assert t.kernel.root - {slot.value} == s.kernel.root - {slot.value};
      PoolSlotStep(s, t, grants, slot.value);
    }
  }

  // Saves the right, or clears it if that fails; either way nobody waits for it here any more.
  method SaveOrClear(endpoint: Endpoint, k: Kernel, pool: ReplyPool, ghost b: Bootstrap, ghost grants: seq<Grant>)
    returns (r: Result<usize, IpcError>)
    requires IsBacked(pool, k.s) && OwnsPool(b, grants, k, pool)
    modifies endpoint`implicitReplyPending, pool, k
    ensures IsBacked(pool, k.s) && !endpoint.implicitReplyPending
    ensures pool.history == DeferredReplies.PoolStep(old(pool.history),
              DeferredReplies.Defer(OutcomeOfSave(r.Ok?, old(k.s.caller))))
    ensures r == Err(NoReplySlots) <==> old(FreeOffset(pool.occupied, pool.slots.Len())) == None
    ensures r == Err(NoReplySlots) ==> k.log == old(k.log)
    ensures r != Err(NoReplySlots) ==>
              && |k.log| == |old(k.log)| + 1 && k.log[|old(k.log)|].call.SaveCaller?
              && (if k.log[|old(k.log)|].outcome == Done then r.Ok? else r == Err(NoReplyAuthority))
    ensures r.Err? ==> pool.history == old(pool.history)
    ensures r.Ok? ==>
              && pool.slots.Contains(r.value) && !old(pool.Holds(r.value)) && pool.HasToken(r.value)
              && (forall s: nat :: pool.slots.start <= s < r.value ==> old(pool.Holds(s)))
    ensures k.s == old(k.s).(root := if r.Ok? then RootWithSaved(old(k.s), r.value) else old(k.s.root), caller := None)
    ensures PoolMoves(b, grants, k, pool, if r.Ok? then PoolSlot(r.value) else Unchanged)
  {
    ghost var before := b.Now();
    r := SaveRight(k, pool);
    if r.Err? {
      ghost var answer := endpoint.ClearImplicitReply(k);
    } else {
      endpoint.implicitReplyPending := false;
    }
    DeferralStep(before, b.Now(), grants, if r.Ok? then Some(r.value) else None);
  }

  // Moves the implicit right into a slot of the pool, to be answered with later. If that fails
  // the right is cleared, so that the endpoint can receive again either way.
  method Defer(received: ReceivedMessage, k: Kernel, pool: ReplyPool, ghost b: Bootstrap, ghost grants: seq<Grant>)
    returns (r: Result<DeferredReply, IpcError>)
    requires received.endpoint.Valid() && received.endpoint.implicitReplyPending
    requires IsBacked(pool, k.s) && OwnsPool(b, grants, k, pool)
    modifies received.endpoint, pool, k
    ensures IsBacked(pool, k.s)
    ensures received.endpoint.Steps(k, ReplyAuthority.Defer(r.Ok?)) && !received.endpoint.implicitReplyPending
    ensures pool.history == DeferredReplies.PoolStep(old(pool.history),
              DeferredReplies.Defer(OutcomeOfSave(r.Ok?, old(k.s.caller))))
    ensures r == Err(NoReplySlots) <==> old(FreeOffset(pool.occupied, pool.slots.Len())) == None
    ensures r == Err(NoReplySlots) ==> k.log == old(k.log)
    ensures r != Err(NoReplySlots) ==>
              && |k.log| == |old(k.log)| + 1 && k.log[|old(k.log)|].call.SaveCaller?
              && (if k.log[|old(k.log)|].outcome == Done then r.Ok? else r == Err(NoReplyAuthority))
    ensures r.Err? ==> pool.history == old(pool.history)
    ensures r.Ok? ==>
              var slot := r.value.slot;
              && r.value.pool == pool && pool.slots.Contains(slot)
              && !old(pool.Holds(slot)) && pool.HasToken(slot)
              && (forall s: nat :: pool.slots.start <= s < slot ==> old(pool.Holds(s)))
    ensures k.s == old(k.s).(root := if r.Ok? then RootWithSaved(old(k.s), r.value.slot) else old(k.s.root),
                             caller := None)
    ensures PoolMoves(b, grants, k, pool, if r.Ok? then PoolSlot(r.value.slot) else Unchanged)
  {
    var slot := SaveOrClear(received.endpoint, k, pool, b, grants);
    received.endpoint.port := PortStep(received.endpoint.port, None, ReplyAuthority.Defer(slot.Ok?)).0;
    return if slot.Ok? then Ok(DeferredReply(pool, slot.value)) else Err(slot.error);
  }

  // The kernel sends to a slot: a reply capability answers its caller and is used up.
  method KernelSend(k: Kernel, slot: nat) returns (ghost answered: Option<nat>)
    modifies k
    ensures answered == if slot in old(k.s.root) && old(k.s.root)[slot].ReplyCap?
                        then Some(old(k.s.root)[slot].right) else None
    ensures k.s == old(k.s).(root := if answered.Some? then old(k.s.root) - {slot} else old(k.s.root))
    ensures k.log == old(k.log)
  {
    answered := None;
    if slot in k.s.root && k.s.root[slot].ReplyCap? {
      answered := Some(k.s.root[slot].right);
      k.s := k.s.(root := k.s.root - {slot});
    }
  }

  // A token that is used up for good gives back its slot, which is empty by then.
  lemma SettleStep(slots: Range, was: DeferredReplies.PoolState, root: map<nat, Cap>, offset: nat,
                   op: DeferredReplies.PoolOp)
    requires was.Sound() && was.capacity == slots.Len() && HoldsRights(slots, was.filled, root)
    requires offset in was.tokens && DeferredReplies.Settles(op, offset)
    ensures var next := DeferredReplies.PoolStep(was, op);
            && next.Sound() && next.capacity == was.capacity
            && Bits.Bit(was.occupied, offset) && next.occupied == WithoutBit(was.occupied, offset)
            && HoldsRights(slots, next.filled, root - {slots.start + offset})
    ensures slots.Contains(slots.start + offset)
    ensures was.Waiting(offset) == if slots.start + offset in root then Some(was.filled[offset]) else None
    ensures slots.start + offset in root ==> root[slots.start + offset] == ReplyCap(was.filled[offset])
  {
    DeferredReplies.PoolStepIsSound(was, op);
    RightRemoved(slots, was.filled, root, offset);
    assert slots.Contains(slots.start + offset);
  }

  // Sends to the saved right, which uses it up, and takes the slot back.
  method SendSaved(deferred: DeferredReply, k: Kernel) returns (ghost answered: Option<nat>)
    requires IsBacked(deferred.pool, k.s) && deferred.pool.HasToken(deferred.slot)
    modifies deferred.pool, k
    ensures IsBacked(deferred.pool, k.s)
    ensures answered == old(deferred.pool.history).Waiting(deferred.slot - deferred.pool.slots.start)
    ensures answered == if deferred.slot in old(k.s.root) then Some(old(k.s.root)[deferred.slot].right) else None
    ensures k.s == old(k.s).(root := old(k.s.root) - {deferred.slot}) && k.log == old(k.log)
    ensures deferred.pool.history == DeferredReplies.PoolStep(old(deferred.pool.history),
              DeferredReplies.Answer(deferred.slot - deferred.pool.slots.start))
    ensures forall s: nat :: deferred.pool.Holds(s) <==> old(deferred.pool.Holds(s)) && s != deferred.slot
  {
    ghost var was, offset := deferred.pool.history, deferred.slot - deferred.pool.slots.start;
    SettleStep(deferred.pool.slots, was, k.s.root, offset, DeferredReplies.Answer(offset));
    answered := KernelSend(k, deferred.slot);
    assert k.s.root == old(k.s.root) - {deferred.slot};
    deferred.pool.Release(deferred.slot);
    deferred.pool.history := DeferredReplies.PoolStep(was, DeferredReplies.Answer(offset));
  }

  // Answers the caller that was deferred.
  method AnswerDeferred(deferred: DeferredReply, k: Kernel, buffer: IpcBuffer, message: Message,
                        ghost b: Bootstrap, ghost grants: seq<Grant>)
    returns (ghost answered: Option<nat>, info: MessageInfo)
    requires IsBacked(deferred.pool, k.s) && deferred.pool.HasToken(deferred.slot)
    requires OwnsPool(b, grants, k, deferred.pool)
    requires message.Valid() && buffer.Valid()
    modifies deferred.pool, k, buffer.msgRegs, buffer.capsOrBadges
    ensures IsBacked(deferred.pool, k.s)
    ensures info == MessageInfo(message.tag, message.length, message.extraCaps, 0)
    ensures buffer.msgRegs[..] == Overwritten(message.Words(), old(buffer.msgRegs[..]))
    ensures buffer.capsOrBadges[..]
         == Overwritten(message.capabilities[..message.extraCaps], old(buffer.capsOrBadges[..]))
    ensures answered == old(deferred.pool.history).Waiting(deferred.slot - deferred.pool.slots.start)
    ensures answered == if deferred.slot in old(k.s.root) then Some(old(k.s.root)[deferred.slot].right) else None
    ensures k.s == old(k.s).(root := old(k.s.root) - {deferred.slot}) && k.log == old(k.log)
    ensures deferred.pool.history == DeferredReplies.PoolStep(old(deferred.pool.history),
              DeferredReplies.Answer(deferred.slot - deferred.pool.slots.start))
    ensures forall s: nat :: deferred.pool.Holds(s) <==> old(deferred.pool.Holds(s)) && s != deferred.slot
    ensures PoolMoves(b, grants, k, deferred.pool, PoolSlot(deferred.slot))
  {
    ghost var before := b.Now();
    info := Prepare(message, buffer);
    answered := SendSaved(deferred, k);
    PoolSlotStep(before, b.Now(), grants, deferred.slot);
  }

  // Deletes the saved right and, if the kernel agrees, takes the slot back.
  method DeleteSaved(deferred: DeferredReply, k: Kernel) returns (r: Result<(), IpcError>)
    requires IsBacked(deferred.pool, k.s) && deferred.pool.HasToken(deferred.slot)
    modifies deferred.pool, k
    ensures IsBacked(deferred.pool, k.s)
    ensures |k.log| == |old(k.log)| + 1 && k.log[|old(k.log)|].call == Delete(deferred.slot)
    ensures r.Ok? <==> k.log[|old(k.log)|].outcome == Done
    ensures r.Err? ==> r.error == ReplyCapabilityOperationFailed && k.s == old(k.s)
    ensures r.Ok? ==> k.s == old(k.s).(root := old(k.s.root) - {deferred.slot})
    ensures deferred.pool.history == DeferredReplies.PoolStep(old(deferred.pool.history),
              DeferredReplies.Discard(deferred.slot - deferred.pool.slots.start, r.Ok?))
    ensures forall s: nat :: deferred.pool.Holds(s) <==> old(deferred.pool.Holds(s)) && (r.Ok? ==> s != deferred.slot)
  {
    ghost var was, offset := deferred.pool.history, deferred.slot - deferred.pool.slots.start;
    SettleStep(deferred.pool.slots, was, k.s.root, offset, DeferredReplies.Discard(offset, true));
    DeferredReplies.PoolStepIsSound(was, DeferredReplies.Discard(offset, false));
    var deleted := k.Invoke(Delete(deferred.slot));
    deferred.pool.history := DeferredReplies.PoolStep(was, DeferredReplies.Discard(offset, deleted == Done));
    if deleted != Done {
      return Err(ReplyCapabilityOperationFailed);
    }
    deferred.pool.Release(deferred.slot);
    return Ok(());
  }

  // Gives up a saved right. If the kernel refuses, the token is gone and its slot stays taken.
  method DiscardDeferred(deferred: DeferredReply, k: Kernel, ghost b: Bootstrap, ghost grants: seq<Grant>)
    returns (r: Result<(), IpcError>)
    requires IsBacked(deferred.pool, k.s) && deferred.pool.HasToken(deferred.slot)
    requires OwnsPool(b, grants, k, deferred.pool)
    modifies deferred.pool, k
    ensures IsBacked(deferred.pool, k.s)
    ensures |k.log| == |old(k.log)| + 1 && k.log[|old(k.log)|].call == Delete(deferred.slot)
    ensures r.Ok? <==> k.log[|old(k.log)|].outcome == Done
    ensures r.Err? ==> r.error == ReplyCapabilityOperationFailed && k.s == old(k.s)
    ensures r.Ok? ==> k.s == old(k.s).(root := old(k.s.root) - {deferred.slot})
    ensures deferred.pool.history == DeferredReplies.PoolStep(old(deferred.pool.history),
              DeferredReplies.Discard(deferred.slot - deferred.pool.slots.start, r.Ok?))
    ensures forall s: nat :: deferred.pool.Holds(s) <==> old(deferred.pool.Holds(s)) && (r.Ok? ==> s != deferred.slot)
    ensures PoolMoves(b, grants, k, deferred.pool, if r.Ok? then PoolSlot(deferred.slot) else Unchanged)
  {
    ghost var before := b.Now();
    r := DeleteSaved(deferred, k);
    PoolSlotStep(before, b.Now(), grants, deferred.slot);
  }

  // The kernel drops a saved right by itself when its caller goes away.
  method KernelRevoke(k: Kernel, pool: ReplyPool, slot: nat, ghost b: Bootstrap, ghost grants: seq<Grant>)
    requires IsBacked(pool, k.s) && pool.slots.Contains(slot) && OwnsPool(b, grants, k, pool)
    modifies pool`history, k
    ensures IsBacked(pool, k.s)
    ensures k.s == old(k.s).(root := old(k.s.root) - {slot}) && k.log == old(k.log)
    ensures pool.history
         == DeferredReplies.PoolStep(old(pool.history), DeferredReplies.Vanish(slot - pool.slots.start))
    ensures PoolMoves(b, grants, k, pool, PoolSlot(slot))
  {
    ghost var before, offset := b.Now(), slot - pool.slots.start;
    RightRemoved(pool.slots, pool.history.filled, k.s.root, offset);
    k.s := k.s.(root := k.s.root - {slot});
    pool.history := DeferredReplies.PoolStep(pool.history, DeferredReplies.Vanish(offset));
    PoolSlotStep(before, b.Now(), grants, slot);
  }
}
