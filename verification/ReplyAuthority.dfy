/**
 The implicit right to answer (ipc.rs). The kernel keeps one such right per receiving thread; each
 endpoint keeps its own flag. What follows is what the flags can and cannot promise.
 */
module ReplyAuthority {
  import opened Machine

  // One endpoint: the right that came with its live message, if a message is live, and what
  // became of every message so far. `live` is set exactly while the pending flag is.
  datatype Port = Port(live: Option<Option<nat>>, received: nat, replied: nat, cleared: nat, deferred: nat) {
    predicate Conserved() {
      received == replied + cleared + deferred + (if live.Some? then 1 else 0)
    }
  }

  const IDLE := Port(None, 0, 0, 0, 0)

  datatype PortOp =
    | Receive(right: Option<nat>, accepted: bool)    // the right is absent for a one-way send
    | ReceiveNothing(right: Option<nat>)             // nothing to report, though a right may be left
    | Reply
    | Finish
    | Defer(saved: bool)

  // Whether the operation gets past the flag, or holds a message to act on.
  predicate Acts(p: Port, op: PortOp) {
    match op
    case Receive(_, _) => p.live.None?
    case ReceiveNothing(_) => p.live.None?
    case _ => p.live.Some?
  }

  // The endpoint and the kernel's implicit right after one operation.
  function PortStep(p: Port, caller: Option<nat>, op: PortOp): (Port, Option<nat>) {
    if !Acts(p, op) then (p, caller)
    else match op
    case Receive(right, accepted) =>
      if accepted then (p.(live := Some(right), received := p.received + 1), right)
      else (p.(received := p.received + 1, cleared := p.cleared + 1), None)
    case ReceiveNothing(right) => (p, right)
    case Reply => (p.(live := None, replied := p.replied + 1), None)
    case Finish => (p.(live := None, cleared := p.cleared + 1), None)
    case Defer(saved) =>
      if saved then (p.(live := None, deferred := p.deferred + 1), None)
      else (p.(live := None, cleared := p.cleared + 1), None)
  }

  // A right that arrives is a new one; rights are numbered by the receives that reach the kernel.
  predicate IsRight(op: PortOp, right: nat) {
    match op
    case Receive(r, _) => r == None || r == Some(right)
    case ReceiveNothing(r) => r == None || r == Some(right)
    case _ => true
  }

  function RightsAfter(p: Port, op: PortOp, nextRight: nat): nat {
    if Acts(p, op) && (op.Receive? || op.ReceiveNothing?) then nextRight + 1 else nextRight
  }

  // Every endpoint of one receiving thread.
  datatype World = World(ports: seq<Port>, caller: Option<nat>, nextRight: nat)

  datatype WorldOp = WorldOp(port: nat, op: PortOp)

  function WorldStep(w: World, o: WorldOp): World
    requires o.port < |w.ports|
  {
    var (port, caller) := PortStep(w.ports[o.port], w.caller, o.op);
    World(w.ports[o.port := port], caller, RightsAfter(w.ports[o.port], o.op, w.nextRight))
  }

  // A run of operations on existing endpoints; a right that arrives is a new one.
  predicate IsRun(w: World, ops: seq<WorldOp>)
    decreases |ops|
  {
    ops == [] ||
    (ops[0].port < |w.ports| && IsRight(ops[0].op, w.nextRight) && IsRun(WorldStep(w, ops[0]), ops[1..]))
  }

  function Run(w: World, ops: seq<WorldOp>): World
    requires IsRun(w, ops)
    decreases |ops|
  {
    if ops == [] then w else Run(WorldStep(w, ops[0]), ops[1..])
  }

  // Runs are built up one operation after the other.
  lemma {:induction false} RunAppends(w: World, ops: seq<WorldOp>, o: WorldOp)
    requires IsRun(w, ops)
    requires o.port < |Run(w, ops).ports| && IsRight(o.op, Run(w, ops).nextRight)
    ensures IsRun(w, ops + [o]) && Run(w, ops + [o]) == WorldStep(Run(w, ops), o)
    decreases |ops|
  {
    if ops == [] {
      assert [o][1..] == [];
    } else {
      RunAppends(WorldStep(w, ops[0]), ops[1..], o);
      assert (ops + [o])[1..] == ops[1..] + [o];
    }
  }

  // At any point of any run, on any number of endpoints: every message received was answered,
  // cleared or deferred, or is the one still pending.
  lemma {:induction false} MessagesAreConserved(w: World, ops: seq<WorldOp>, e: nat)
    requires IsRun(w, ops) && e < |w.ports| && w.ports[e].Conserved()
    ensures e < |Run(w, ops).ports| && Run(w, ops).ports[e].Conserved()
    decreases |ops|
  {
    if ops != [] {
      MessagesAreConserved(WorldStep(w, ops[0]), ops[1..], e);
    }
  }

  predicate IsReceived(op: PortOp) {
    op.Receive?
  }

  predicate IsReplied(op: PortOp) {
    op.Reply?
  }

  predicate IsDeferred(op: PortOp) {
    op.Defer? && op.saved
  }

  // The message's right was cleared: finished, turned away, or not saved.
  predicate IsCleared(op: PortOp) {
    op.Finish? || (op.Receive? && !op.accepted) || (op.Defer? && !op.saved)
  }

  // How many operations of a kind acted on endpoint `e` in a run.
  function Acted(w: World, ops: seq<WorldOp>, e: nat, kind: PortOp -> bool): nat
    requires IsRun(w, ops)
    decreases |ops|
  {
    if ops == [] then 0
    else
      var first := if ops[0].port == e && Acts(w.ports[e], ops[0].op) && kind(ops[0].op) then 1 else 0;
      first + Acted(WorldStep(w, ops[0]), ops[1..], e, kind)
  }

  // Each counter counts what its name says, over every run.
  lemma {:induction false} CountersCount(w: World, ops: seq<WorldOp>, e: nat)
    requires IsRun(w, ops) && e < |w.ports|
    ensures e < |Run(w, ops).ports|
    ensures Run(w, ops).ports[e].received == w.ports[e].received + Acted(w, ops, e, IsReceived)
    ensures Run(w, ops).ports[e].replied == w.ports[e].replied + Acted(w, ops, e, IsReplied)
    ensures Run(w, ops).ports[e].cleared == w.ports[e].cleared + Acted(w, ops, e, IsCleared)
    ensures Run(w, ops).ports[e].deferred == w.ports[e].deferred + Acted(w, ops, e, IsDeferred)
    decreases |ops|
  {
    if ops != [] {
      CountersCount(WorldStep(w, ops[0]), ops[1..], e);
    }
  }

  // The right in the kernel is the one that came with the live message.
  predicate HoldsItsRight(w: World, e: nat) {
    e < |w.ports| && (w.ports[e].live.Some? ==> w.caller == w.ports[e].live.value)
  }

  // While one endpoint alone is used, an implicit reply always answers the caller whose message
  // it is given for.
  lemma {:induction false} OneEndpointAnswersItsCallers(w: World, ops: seq<WorldOp>, e: nat)
    requires IsRun(w, ops) && HoldsItsRight(w, e)
    requires forall i :: 0 <= i < |ops| ==> ops[i].port == e
    ensures HoldsItsRight(Run(w, ops), e)
    decreases |ops|
  {
    if ops != [] {
      OneEndpointAnswersItsCallers(WorldStep(w, ops[0]), ops[1..], e);
    }
  }

  // No operation of the run gets past a flag or acts on a message.
  predicate NothingActs(w: World, ops: seq<WorldOp>)
    requires IsRun(w, ops)
    decreases |ops|
  {
    ops == [] || (!Acts(w.ports[ops[0].port], ops[0].op) && NothingActs(WorldStep(w, ops[0]), ops[1..]))
  }

  lemma {:induction false} LostRightStaysLost(w: World, ops: seq<WorldOp>, right: nat)
    requires IsRun(w, ops) && right < w.nextRight && w.caller != Some(right)
    ensures Run(w, ops).caller != Some(right)
    decreases |ops|
  {
    if ops != [] {
      LostRightStaysLost(WorldStep(w, ops[0]), ops[1..], right);
    }
  }

  lemma {:induction false} LiveMessageStays(w: World, ops: seq<WorldOp>, e: nat, origin: Option<nat>)
    requires IsRun(w, ops) && e < |w.ports| && w.ports[e].live == Some(origin)
    requires forall i :: 0 <= i < |ops| && ops[i].port == e ==> ops[i].op.Receive? || ops[i].op.ReceiveNothing?
    ensures e < |Run(w, ops).ports| && Run(w, ops).ports[e].live == Some(origin)
    decreases |ops|
  {
    if ops != [] {
      assert forall i :: 0 <= i < |ops[1..]| ==> ops[1..][i] == ops[i + 1];
      LiveMessageStays(WorldStep(w, ops[0]), ops[1..], e, origin);
    }
  }

  // With more endpoints the flags are not enough. A message that is still live on endpoint `e`
  // can be answered exactly if nothing acted on any other endpoint since it arrived.
  lemma {:induction false} AnswerIsRightIff(w: World, ops: seq<WorldOp>, e: nat, right: nat)
    requires IsRun(w, ops) && e < |w.ports| && right < w.nextRight
    requires w.caller == Some(right) && w.ports[e].live == Some(Some(right))
    requires forall i :: 0 <= i < |ops| && ops[i].port == e ==> ops[i].op.Receive? || ops[i].op.ReceiveNothing?
    ensures e < |Run(w, ops).ports| && Run(w, ops).ports[e].live == Some(Some(right))
    ensures Run(w, ops).caller == Some(right) <==> NothingActs(w, ops)
    decreases |ops|
  {
    if ops != [] {
      var next := WorldStep(w, ops[0]);
      assert forall i :: 0 <= i < |ops[1..]| ==> ops[1..][i] == ops[i + 1];
      if Acts(w.ports[ops[0].port], ops[0].op) {
        assert next.caller != Some(right);
        LostRightStaysLost(next, ops[1..], right);
        LiveMessageStays(next, ops[1..], e, Some(right));
      } else {
        assert next.ports == w.ports;
        AnswerIsRightIff(next, ops[1..], e, right);
      }
    }
  }

  // For example: two endpoints each receive a call, and the first one's reply reaches the
  // second one's caller.
  lemma TwoEndpointsCanCross(w: World)
    requires w == World([IDLE, IDLE], None, 0)
    ensures var ops := [WorldOp(0, Receive(Some(0), true)), WorldOp(1, Receive(Some(1), true))];
            && IsRun(w, ops)
            && Run(w, ops).ports[0].live == Some(Some(0))
            && Run(w, ops).caller == Some(1)
  {
    var first, second := WorldOp(0, Receive(Some(0), true)), WorldOp(1, Receive(Some(1), true));
    var ops := [first, second];
    var next := WorldStep(w, first);
    assert next == World([Port(Some(Some(0)), 1, 0, 0, 0), IDLE], Some(0), 1);
    assert ops[1..] == [second];
    assert [second][1..] == [];
    assert IsRun(next, [second]);
  }
}
