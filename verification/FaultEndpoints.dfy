/** The fault adapter over a generic endpoint (fault.rs). */
module FaultEndpoints {
  import opened Machine
  import opened Kernels
  import opened Messages
  import opened ReplyAuthority
  import Faults
  import Ipc

  datatype FaultReceiveError =
    | MissingSourceBadge
    | UnexpectedCapabilities(capsUnwrapped: nat, extraCaps: nat)
    | FaultTooLong(length: nat, capacity: nat)
    | Generic(error: IpcError)
    | Undecodable(defect: Faults.FaultDecodeError)

  datatype ReceivedFault = ReceivedFault(source: usize, fault: Faults.Fault, received: Ipc.ReceivedMessage)

  // Whether what the kernel delivered is a fault: badged, without capabilities, no longer than
  // the buffer, and in the kernel's format.
  ghost predicate IsFault(d: Ipc.Delivery, source: usize, fault: Faults.Fault) {
    && d.badge == source != 0
    && d.info.extraCaps == 0 && d.info.capsUnwrapped == 0
    && d.info.length <= MESSAGE_CAPACITY && d.info.length <= |d.regs|
    && fault.Valid()
    && Faults.Encode(fault) == (d.info.tag, d.regs[..d.info.length])
  }

  // The first defect of a delivery that is not a fault.
  ghost predicate IsFirstDefect(d: Ipc.Delivery, error: FaultReceiveError) {
    if d.info.extraCaps > 0 then error == UnexpectedCapabilities(0, d.info.extraCaps)
    else if d.info.length > MESSAGE_CAPACITY then error == FaultTooLong(d.info.length, MESSAGE_CAPACITY)
    else if d.badge == 0 then error == MissingSourceBadge
    else if d.info.capsUnwrapped != 0 then error == UnexpectedCapabilities(d.info.capsUnwrapped, 0)
    else
      && d.info.length <= |d.regs|
      && error.Undecodable?
      && Faults.Decode(d.info.tag, d.regs[..d.info.length]) == Err(error.defect)
  }

  class FaultEndpoint {
    const endpoint: Ipc.Endpoint

    ghost predicate Valid()
      reads this, endpoint
    {
      endpoint.Valid()
    }

    constructor ()
      ensures Valid() && fresh(endpoint) && endpoint.port == IDLE
    {
      endpoint := new Ipc.Endpoint();
    }

    // Receives one fault. A message that is not one is turned away and its right cleared, so
    // the endpoint is never left waiting for an answer that nobody can give.
    method Receive(k: Kernel, buffer: IpcBuffer)
      returns (r: Result<ReceivedFault, FaultReceiveError>, ghost d: Ipc.Delivery)
      requires Valid() && buffer.Valid()
      modifies endpoint, k, buffer.msgRegs, buffer.capsOrBadges
      ensures Valid() && k.s.root == old(k.s.root) && (old(k.s.Consistent()) ==> k.s.Consistent())
      ensures endpoint.Steps(k, ReplyAuthority.Receive(if old(endpoint.implicitReplyPending) then None else d.right,
                                                       r.Ok?))
      ensures r != Err(Generic(ReplyPending)) ==> Ipc.ReceivedInto(old(k.s), k.s.(caller := d.right), None, d)
      ensures LeavesAlone({}, old(k.s), k.s)
      ensures r == Err(Generic(ReplyPending)) <==> old(endpoint.implicitReplyPending)
      ensures r == Err(Generic(ReplyPending)) ==> endpoint.port == old(endpoint.port) && k.s == old(k.s)
      ensures r.Err? && r != Err(Generic(ReplyPending)) ==>
                && !endpoint.implicitReplyPending && k.s.caller == None
                && endpoint.port.cleared == old(endpoint.port.cleared) + 1
                && forall source, fault :: !IsFault(d, source, fault)
      ensures r.Ok? ==>
                && endpoint.implicitReplyPending && endpoint.port.live == Some(d.right) && k.s.caller == d.right
                && r.value.received.endpoint == endpoint
                && IsFault(d, r.value.source, r.value.fault)
      ensures r.Err? && r != Err(Generic(ReplyPending)) ==> IsFirstDefect(d, r.error)
    {
      var received;
      received, d := endpoint.Receive(k, buffer, None);
      if received != Err(ReplyPending) {
        Ipc.ReceiveLeavesAlone(old(k.s), k.s, None, d);
      }
      if received.Err? {
        r := match received.error
             case MessageTooLong(length, capacity) => Err(FaultTooLong(length, capacity))
             case ReceiveCapacityExceeded(count, _) => Err(UnexpectedCapabilities(0, count))
             case other => Err(Generic(other));
        return;
      }
      var message := received.value.message;
      if received.value.badge == None {
        ghost var answer := Ipc.Finish(received.value, k);
        r := Err(MissingSourceBadge);
        return;
      }
      if message.capsUnwrapped != 0 || message.extraCaps != 0 {
        ghost var answer := Ipc.Finish(received.value, k);
        r := Err(UnexpectedCapabilities(message.capsUnwrapped, message.extraCaps));
        return;
      }
      var fault := Faults.Decode(message.tag, message.Words());
      assert message.Words() == d.regs[..d.info.length];
      forall f: Faults.Fault
        ensures fault == Ok(f) <==> f.Valid() && Faults.Encode(f) == (d.info.tag, d.regs[..d.info.length])
      {
        Faults.DecodingIsExact(message.tag, message.Words(), f);
      }
      if fault.Err? {
        ghost var answer := Ipc.Finish(received.value, k);
        r := Err(Undecodable(fault.error));
        return;
      }
      r := Ok(ReceivedFault(received.value.badge.value, fault.value, received.value));
    }

    // Resumes the faulting thread through the right that came with this very fault.
    method Reply(fault: ReceivedFault, k: Kernel, buffer: IpcBuffer)
      returns (ghost answered: Option<nat>, info: MessageInfo)
      requires fault.received.endpoint == endpoint && Valid() && endpoint.implicitReplyPending && buffer.Valid()
      modifies endpoint, k, buffer.msgRegs, buffer.capsOrBadges
      ensures endpoint.Steps(k, ReplyAuthority.Reply) && !endpoint.implicitReplyPending
      ensures answered == old(k.s.caller)
      ensures k.s == old(k.s).(caller := None) && k.log == old(k.log)
      ensures info == MessageInfo(0, 0, 0, 0)
      ensures buffer.msgRegs[..] == old(buffer.msgRegs[..]) && buffer.capsOrBadges[..] == old(buffer.capsOrBadges[..])
    {
      answered, info := Ipc.Reply(fault.received, k, buffer, Empty(0));
    }
  }
}
