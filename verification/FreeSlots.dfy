/** The suffix allocator of root capability slots (free_slots.rs). */
module Slots {
  import opened Machine

  // What the allocator remembers, as a value.
  datatype SlotState = SlotState(first: usize, start: usize, end: usize) {
    // Every state reachable from `new`: an inverted range never moves.
    predicate Valid() {
      first <= start && (start <= end || start == first)
    }

    function Live(): set<nat> {
      Span(first, start)
    }

    function AllocatedSince(checkpoint: usize): Option<Range> {
      if first <= checkpoint <= start then Some(Range(checkpoint, start)) else None
    }
  }

  // One use of the allocator, and what its caller is told.
  datatype SlotOp = Allocate(created: bool) | Reserve(count: usize) | Rewind(checkpoint: usize)
  datatype SlotReply = Nothing | Handed(slots: Range) | Rewound(done: bool)

  function Apply(s: SlotState, op: SlotOp): (SlotState, SlotReply) {
    match op
    case Allocate(created) =>
      if s.start < s.end && created
      then (s.(start := s.start + 1), Handed(Range(s.start, s.start + 1)))
      else (s, Nothing)
    case Reserve(count) =>
      if s.start + count <= s.end
      then (s.(start := s.start + count), Handed(Range(s.start, s.start + count)))
      else (s, Nothing)
    case Rewind(checkpoint) =>
      if s.AllocatedSince(checkpoint).Some?
      then (s.(start := checkpoint), Rewound(true))
      else (s, Rewound(false))
  }

  function Run(s: SlotState, ops: seq<SlotOp>): SlotState
    decreases |ops|
  {
    if ops == [] then s else Run(Apply(s, ops[0]).0, ops[1..])
  }

  class FreeSlots {
    const first: usize
    const end: usize
    var start: usize

    function State(): SlotState
      reads this
    {
      SlotState(first, start, end)
    }

    ghost predicate Valid()
      reads this
    {
      State().Valid()
    }

    constructor (start: usize, end: usize)
      ensures State() == SlotState(start, start, end) && Valid()
    {
      this.first, this.start, this.end := start, start, end;
    }

    // The half of `try_allocate` before its callback: the slot that the callback would fill.
    // The source also gives up when the slot has no successor; no state takes that branch.
    method Offer() returns (slot: Option<usize>)
      requires Valid()
      ensures slot == if start < end then Some(start) else None
    {
      if start >= end {
        return None;
      }
      var next := CheckedAdd(start, 1);
      if next == None {
        assert false;
      }
      return Some(start);
    }

    // The half of `try_allocate` after a callback that succeeded.
    method Commit()
      requires Valid() && start < end
      modifies this
      ensures Valid() && State() == Apply(old(State()), Allocate(true)).0
    {
      start := start + 1;
    }

    method Reserve(count: usize) returns (slots: Option<Range>)
      requires Valid()
      modifies this
      ensures Valid() && State() == Apply(old(State()), SlotOp.Reserve(count)).0
      ensures Apply(old(State()), SlotOp.Reserve(count)).1
           == (if slots.Some? then Handed(slots.value) else Nothing)
    {
      var next := CheckedAdd(start, count);
      if next == None || next.value > end {
        return None;
      }
      slots := Some(Range(start, next.value));
      start := next.value;
    }

    method Rewind(checkpoint: usize) returns (done: bool)
      requires Valid()
      modifies this
      ensures Valid() && State() == Apply(old(State()), SlotOp.Rewind(checkpoint)).0
      ensures Rewound(done) == Apply(old(State()), SlotOp.Rewind(checkpoint)).1
    {
      if State().AllocatedSince(checkpoint) == None {
        return false;
      }
      start := checkpoint;
      return true;
    }
  }

  // The owner's view: only what the replies said. A slot is live once handed out and until
  // a rewind that succeeded took it back.
  function Account(live: set<nat>, op: SlotOp, reply: SlotReply): set<nat> {
    match reply
    case Nothing => live
    case Handed(slots) => live + Span(slots.start, slots.end)
    case Rewound(done) =>
      if done && op.Rewind? then set k | k in live && k < op.checkpoint else live
  }

  function LiveAfter(s: SlotState, live: set<nat>, ops: seq<SlotOp>): set<nat>
    decreases |ops|
  {
    if ops == [] then live
    else
      var (next, reply) := Apply(s, ops[0]);
      LiveAfter(next, Account(live, ops[0], reply), ops[1..])
  }

  // Every slot ever handed out was not live at that moment.
  predicate NeverHandsOutLive(s: SlotState, live: set<nat>, ops: seq<SlotOp>)
    decreases |ops|
  {
    ops == [] ||
    var (next, reply) := Apply(s, ops[0]);
    && (reply.Handed? ==> Span(reply.slots.start, reply.slots.end) !! live
                          && Span(reply.slots.start, reply.slots.end) <= Span(s.first, s.end))
    && NeverHandsOutLive(next, Account(live, ops[0], reply), ops[1..])
  }

  lemma StepTracksLiveSlots(s: SlotState, op: SlotOp)
    requires s.Valid()
    ensures var (next, reply) := Apply(s, op);
            && next.Valid()
            && Account(s.Live(), op, reply) == next.Live()
            && (reply.Handed? ==> Span(reply.slots.start, reply.slots.end) !! s.Live()
                                  && Span(reply.slots.start, reply.slots.end) <= Span(s.first, s.end))
  {
    var (next, reply) := Apply(s, op);
    match reply
    case Nothing =>
    case Handed(slots) =>
      assert s.Live() + Span(slots.start, slots.end) == next.Live();
    case Rewound(done) =>
      if done {
        assert (set k | k in s.Live() && k < op.checkpoint) == next.Live();
      }
  }

  // Over any history, `[first, start)` is exactly what the owners hold, and no slot is handed
  // to a second owner while the first still has it.
  lemma {:induction false} RunTracksLiveSlots(s: SlotState, ops: seq<SlotOp>)
    requires s.Valid()
    ensures Run(s, ops).Valid()
    ensures LiveAfter(s, s.Live(), ops) == Run(s, ops).Live()
    ensures NeverHandsOutLive(s, s.Live(), ops)
    decreases |ops|
  {
    if ops != [] {
      var (next, reply) := Apply(s, ops[0]);
      StepTracksLiveSlots(s, ops[0]);
      RunTracksLiveSlots(next, ops[1..]);
    }
  }

  predicate NeverBelow(s: SlotState, ops: seq<SlotOp>, checkpoint: nat)
    decreases |ops|
  {
    checkpoint <= s.start && (ops == [] || NeverBelow(Apply(s, ops[0]).0, ops[1..], checkpoint))
  }

  lemma {:induction false} RunKeepsBounds(s: SlotState, ops: seq<SlotOp>, checkpoint: nat)
    requires s.Valid() && NeverBelow(s, ops, checkpoint)
    ensures Run(s, ops).Valid() && checkpoint <= Run(s, ops).start
    ensures Run(s, ops).first == s.first && Run(s, ops).end == s.end
    decreases |ops|
  {
    if ops != [] {
      RunKeepsBounds(Apply(s, ops[0]).0, ops[1..], checkpoint);
    }
  }

  // A checkpoint that no rewind went below names exactly what was committed after it, and
  // rewinding to it restores the very state it was taken in.
  lemma CheckpointIsExact(s: SlotState, ops: seq<SlotOp>)
    requires s.Valid() && NeverBelow(s, ops, s.start)
    ensures var later := Run(s, ops);
            && later.AllocatedSince(s.start) == Some(Range(s.start, later.start))
            && Span(s.start, later.start) == LiveAfter(s, s.Live(), ops) - s.Live()
            && Apply(later, Rewind(s.start)) == (s, Rewound(true))
  {
    RunKeepsBounds(s, ops, s.start);
    RunTracksLiveSlots(s, ops);
  }
}
