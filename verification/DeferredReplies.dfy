/** Saved rights to answer, over every history of one reply pool (ipc.rs). */
module DeferredReplies {
  import opened Machine
  import opened Bits
  import opened PoolBitmaps

  // A pool: its bitmap, the offsets whose tokens are still held, those whose token went with a
  // deletion that failed, the rights that the root slots hold, and what happened so far.
  datatype PoolState = PoolState(
    capacity: nat, occupied: nat, tokens: set<nat>, lost: set<nat>, filled: map<nat, nat>,
    defers: nat, answers: nat, discards: nat)
  {
    ghost predicate Sound() {
      && 0 < capacity <= MAX_DEFERRED_REPLIES
      && BitsBelow(occupied, capacity)
      && tokens !! lost
      && (forall i: nat :: Bit(occupied, i) <==> i in tokens + lost)
      && filled.Keys <= tokens + lost
      && defers == Popcount(occupied) + answers + discards
    }

    // Whom an answer through the token for this offset would reach.
    function Waiting(offset: nat): Option<nat> {
      if offset in filled then Some(filled[offset]) else None
    }
  }

  datatype SaveOutcome = SaveFailed | SavedNothing | SavedRight(right: nat)

  datatype PoolOp =
    | Defer(save: SaveOutcome)                  // and what the kernel makes of `save_caller`
    | Answer(offset: nat)
    | Discard(offset: nat, deleted: bool)       // and whether the kernel deletes the capability
    | Vanish(offset: nat)                       // the kernel revokes a saved right by itself

  function PoolStep(p: PoolState, op: PoolOp): PoolState
    requires p.capacity <= MAX_DEFERRED_REPLIES
  {
    match op
    case Defer(save) =>
      var free := FreeOffset(p.occupied, p.capacity);
      if free == None then p
      else if save.SaveFailed? then p.(occupied := WithoutBit(WithBit(p.occupied, free.value), free.value))
      else p.(occupied := WithBit(p.occupied, free.value), tokens := p.tokens + {free.value},
              filled := if save.SavedRight? then p.filled[free.value := save.right] else p.filled,
              defers := p.defers + 1)
    case Answer(o) =>
      if o !in p.tokens then p
      else p.(occupied := WithoutBit(p.occupied, o), tokens := p.tokens - {o}, filled := p.filled - {o},
              answers := p.answers + 1)
    case Discard(o, deleted) =>
      if o !in p.tokens then p
      else if !deleted then p.(tokens := p.tokens - {o}, lost := p.lost + {o})
      else p.(occupied := WithoutBit(p.occupied, o), tokens := p.tokens - {o}, filled := p.filled - {o},
              discards := p.discards + 1)
    case Vanish(o) =>
      p.(filled := p.filled - {o})
  }

  function PoolRun(p: PoolState, ops: seq<PoolOp>): PoolState
    requires p.capacity <= MAX_DEFERRED_REPLIES
    decreases |ops|
  {
    if ops == [] then p else PoolRun(PoolStep(p, ops[0]), ops[1..])
  }

  // A save that failed leaves the bitmap as it was.
  lemma FailedSaveRestores(occupied: nat, offset: nat)
    requires BitsBelow(occupied, U64_BITS) && offset < U64_BITS && !Bit(occupied, offset)
    ensures WithoutBit(WithBit(occupied, offset), offset) == occupied
  {
    WithBitSets(occupied, offset);
    WithoutBitClears(WithBit(occupied, offset), offset);
    SameBitsSamePopcount(WithoutBit(WithBit(occupied, offset), offset), occupied, U64_BITS);
  }

  lemma PoolStepIsSound(p: PoolState, op: PoolOp)
    requires p.Sound()
    ensures PoolStep(p, op).Sound()
    ensures op.Defer? && op.save.SaveFailed? ==> PoolStep(p, op) == p
    ensures p.lost <= PoolStep(p, op).lost
    ensures PoolStep(p, op).capacity == p.capacity
  {
    match op
    case Defer(save) =>
      FreeOffsetIsLeast(p.occupied, p.capacity);
      var free := FreeOffset(p.occupied, p.capacity);
      if free.Some? {
        FailedSaveRestores(p.occupied, free.value);
        WithBitSets(p.occupied, free.value);
      }
    case Answer(o) =>
      if o in p.tokens {
        WithoutBitClears(p.occupied, o);
      }
    case Discard(o, deleted) =>
      if o in p.tokens {
        WithoutBitClears(p.occupied, o);
      }
    case Vanish(o) =>
  }

  // Over every history: a bit is set exactly for a right still held or lost, the population is
  // what was deferred and neither answered nor discarded, and a root slot that holds a reply
  // capability is never on offer.
  lemma {:induction false} DeferredRepliesAreConserved(p: PoolState, ops: seq<PoolOp>)
    requires p.Sound()
    ensures var q := PoolRun(p, ops);
            && q.Sound()
            && Popcount(q.occupied) == q.defers - q.answers - q.discards
            && (FreeOffset(q.occupied, q.capacity).Some? ==>
                  FreeOffset(q.occupied, q.capacity).value !in q.tokens + q.lost + q.filled.Keys)
    decreases |ops|
  {
    if ops == [] {
      FreeOffsetIsLeast(p.occupied, p.capacity);
    } else {
      PoolStepIsSound(p, ops[0]);
      DeferredRepliesAreConserved(PoolStep(p, ops[0]), ops[1..]);
    }
  }

  // What each operation does for good: it saves a right in a slot that was free, answers through
  // a token that is held, or deletes the right of one.
  predicate Defers(p: PoolState, op: PoolOp)
    requires p.capacity <= MAX_DEFERRED_REPLIES
  {
    op.Defer? && !op.save.SaveFailed? && FreeOffset(p.occupied, p.capacity).Some?
  }

  predicate Answers(p: PoolState, op: PoolOp) {
    op.Answer? && op.offset in p.tokens
  }

  predicate Discards(p: PoolState, op: PoolOp) {
    op.Discard? && op.deleted && op.offset in p.tokens
  }

  // How many deferrals, answers and discards there were in a run.
  function Totals(p: PoolState, ops: seq<PoolOp>): (nat, nat, nat)
    requires p.capacity <= MAX_DEFERRED_REPLIES
    decreases |ops|
  {
    if ops == [] then (0, 0, 0)
    else
      var (defers, answers, discards) := Totals(PoolStep(p, ops[0]), ops[1..]);
      (defers + (if Defers(p, ops[0]) then 1 else 0), answers + (if Answers(p, ops[0]) then 1 else 0),
       discards + (if Discards(p, ops[0]) then 1 else 0))
  }

  // Each counter counts what its name says, and so the population of the bitmap is known from
  // the operations alone.
  lemma {:induction false} PopulationIsKnown(p: PoolState, ops: seq<PoolOp>)
    requires p.Sound()
    ensures var (defers, answers, discards) := Totals(p, ops);
            && PoolRun(p, ops).defers == p.defers + defers
            && PoolRun(p, ops).answers == p.answers + answers
            && PoolRun(p, ops).discards == p.discards + discards
            && Popcount(PoolRun(p, ops).occupied) == Popcount(p.occupied) + defers - answers - discards
    decreases |ops|
  {
    if ops != [] {
      PoolStepIsSound(p, ops[0]);
      PopulationIsKnown(PoolStep(p, ops[0]), ops[1..]);
    }
  }

  // Whether the operation uses up the token for this offset, for good or not.
  predicate Consumes(op: PoolOp, offset: nat) {
    (op.Answer? || op.Discard?) && op.offset == offset
  }

  // As long as a token is held, whatever happens to others: it stands for the same caller, or
  // for nobody once the kernel has dropped the saved right.
  lemma {:induction false} TokenKeepsItsCaller(p: PoolState, ops: seq<PoolOp>, offset: nat)
    requires p.Sound() && offset in p.tokens
    requires forall i :: 0 <= i < |ops| ==> !Consumes(ops[i], offset)
    ensures PoolRun(p, ops).capacity == p.capacity && offset in PoolRun(p, ops).tokens
    ensures PoolRun(p, ops).Waiting(offset) == if Vanish(offset) in ops then None else p.Waiting(offset)
    decreases |ops|
  {
    if ops != [] {
      PoolStepIsSound(p, ops[0]);
      FreeOffsetIsLeast(p.occupied, p.capacity);
      var next := PoolStep(p, ops[0]);
      assert next.Waiting(offset) == if ops[0] == Vanish(offset) then None else p.Waiting(offset);
      assert forall i :: 0 <= i < |ops[1..]| ==> ops[1..][i] == ops[i + 1];
      assert ops == [ops[0]] + ops[1..];
      TokenKeepsItsCaller(next, ops[1..], offset);
    }
  }

  // So over every history a deferred answer reaches exactly the caller whose right was saved when
  // its token was issued, or nobody once the kernel has dropped that right.
  lemma DeferredAnswerReachesItsCaller(p: PoolState, right: nat, ops: seq<PoolOp>, offset: nat)
    requires p.Sound() && FreeOffset(p.occupied, p.capacity) == Some(offset)
    requires forall i :: 0 <= i < |ops| ==> !Consumes(ops[i], offset)
    ensures var later := PoolRun(PoolStep(p, Defer(SavedRight(right))), ops);
            && offset in later.tokens
            && later.Waiting(offset) == if Vanish(offset) in ops then None else Some(right)
  {
    PoolStepIsSound(p, Defer(SavedRight(right)));
    TokenKeepsItsCaller(PoolStep(p, Defer(SavedRight(right))), ops, offset);
  }

  predicate Settles(op: PoolOp, offset: nat) {
    op == Answer(offset) || op == Discard(offset, true)
  }

  // A slot is not handed out again before its token was answered with or discarded for good.
  lemma {:induction false} NoReissueBeforeSettled(p: PoolState, ops: seq<PoolOp>, offset: nat)
    requires p.Sound() && offset in p.tokens + p.lost
    requires offset in p.lost || forall i :: 0 <= i < |ops| ==> !Settles(ops[i], offset)
    ensures PoolRun(p, ops).capacity == p.capacity
    ensures offset in PoolRun(p, ops).tokens + PoolRun(p, ops).lost
    ensures FreeOffset(PoolRun(p, ops).occupied, PoolRun(p, ops).capacity) != Some(offset)
    decreases |ops|
  {
    if ops == [] {
      FreeOffsetIsLeast(p.occupied, p.capacity);
    } else {
      PoolStepIsSound(p, ops[0]);
      var next := PoolStep(p, ops[0]);
      assert offset in next.tokens + next.lost by {
        assert offset in p.lost ==> offset in next.lost;
        assert offset !in p.lost ==> !Settles(ops[0], offset);
      }
      assert forall i :: 0 <= i < |ops[1..]| ==> ops[1..][i] == ops[i + 1];
      NoReissueBeforeSettled(next, ops[1..], offset);
    }
  }
}
