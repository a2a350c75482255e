/** The target's machine words, and the success and failure values of the substrate. */
module Machine {

  datatype Option<+T> = None | Some(value: T)

  datatype Result<+T, +E> = Ok(value: T) | Err(error: E) {
    predicate IsFailure() {
      Err?
    }

    function PropagateFailure<U>(): Result<U, E>
      requires Err?
    {
      Err(error)
    }

    function Extract(): T
      requires Ok?
    {
      value
    }
  }

  const WORD_SIZE: nat := 64
  const USIZE_MAX: nat := 0xFFFF_FFFF_FFFF_FFFF

  // A 64-bit machine word: `usize`, `u64` and the kernel's `Word` on the pinned target.
  type usize = n: nat | n <= USIZE_MAX

  // Addition that reports overflow instead of wrapping.
  function CheckedAdd(a: usize, b: usize): Option<usize> {
    if a + b <= USIZE_MAX then Some(a + b) else None
  }

  function Pow2(k: nat): (p: nat)
    ensures p > 0
  {
    if k == 0 then 1 else 2 * Pow2(k - 1)
  }

  function Max(a: nat, b: nat): nat {
    if a < b then b else a
  }

  // Division of machine words: it truncates, and nothing is negative.
  function Quotient(a: nat, b: nat): nat
    requires b > 0
  {
    a / b
  }

  // A half-open interval of slot indices.
  datatype Range = Range(start: nat, end: nat) {
    function Len(): nat {
      if start <= end then end - start else 0
    }

    predicate Contains(i: nat) {
      start <= i < end
    }
  }

  // The indices in `[lo, hi)`.
  function Span(lo: nat, hi: nat): (s: set<nat>)
    ensures forall i: nat :: i in s <==> lo <= i < hi
    decreases hi
  {
    if hi <= lo then {} else Span(lo, hi - 1) + {hi - 1}
  }

  lemma AppendAssociates<T>(a: seq<T>, b: seq<T>, c: seq<T>)
    ensures (a + b) + c == a + (b + c)
  {
  }

  // The substrate's public error values.
  datatype BootstrapError =
    | NoFreeSlots
    | NoKernelMemory
    | KernelAllocationFailed
    | InvalidImageRegion
    | FrameMappingFailed
    | FrameUnmappingFailed
    | InvalidTaskConfiguration
    | VSpaceCreationFailed
    | CSpaceCreationFailed
    | ThreadConfigurationFailed
    | RollbackFailed
}
