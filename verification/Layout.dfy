/** The fixed page roles of a task, checked before any kernel object is made (task.rs). */
module Layout {
  import opened Machine

  datatype LayoutError = InvalidPageSize | UnalignedAddress | AddressOverflow | OverlappingPages | InvalidEntry

  datatype TaskLayout = TaskLayout(stackPointer: usize)

  predicate IsPowerOfTwo(n: nat) {
    n == 1 || (n > 0 && n % 2 == 0 && IsPowerOfTwo(n / 2))
  }

  lemma {:induction false} Pow2IsPowerOfTwo(k: nat)
    ensures IsPowerOfTwo(Pow2(k))
  {
    if k > 0 {
      Pow2IsPowerOfTwo(k - 1);
      assert Pow2(k) / 2 == Pow2(k - 1);
    }
  }

  lemma {:induction false} PowerOfTwoIsPow2(n: nat) returns (k: nat)
    requires IsPowerOfTwo(n)
    ensures n == Pow2(k)
  {
    if n == 1 {
      k := 0;
    } else {
      var half := PowerOfTwoIsPow2(n / 2);
      k := half + 1;
    }
  }

  ghost predicate IsSomePow2(n: nat) {
    exists k: nat :: n == Pow2(k)
  }

  // The test for a power of two is exact.
  lemma PowersOfTwoAreExact(n: nat)
    ensures IsPowerOfTwo(n) <==> IsSomePow2(n)
  {
    if IsPowerOfTwo(n) {
      var k := PowerOfTwoIsPow2(n);
    }
    if IsSomePow2(n) {
      var k: nat :| n == Pow2(k);
      Pow2IsPowerOfTwo(k);
    }
  }

  // What the check at page `i` reports when every page before it passed.
  function PageError(pageSize: nat, pages: seq<usize>, i: nat): Option<LayoutError>
    requires pageSize > 0 && i < |pages|
  {
    if pages[i] % pageSize != 0 then Some(UnalignedAddress)
    else if pages[i] + pageSize > USIZE_MAX then Some(AddressOverflow)
    else if pages[i] in pages[..i] then Some(OverlappingPages)
    else None
  }

  // Whole pages within the address space, no two of which share a byte.
  ghost predicate PagesAreSeparate(pageSize: nat, pages: seq<usize>)
    requires pageSize > 0
  {
    && (forall i :: 0 <= i < |pages| ==> pages[i] % pageSize == 0 && pages[i] + pageSize <= USIZE_MAX)
    && (forall i, j :: 0 <= i < j < |pages| ==>
                         pages[i] + pageSize <= pages[j] || pages[j] + pageSize <= pages[i])
  }

  predicate EntryIsInCode(pageSize: nat, code: usize, entry: usize) {
    code <= entry < code + pageSize && entry % 4 == 0
  }

  lemma DistinctPagesAreDisjoint(p: nat, a: nat, b: nat)
    requires p > 0 && a % p == 0 && b % p == 0
    ensures a == b || a + p <= b || b + p <= a
  {
    var m, n := a / p, b / p;
    assert a == m * p && b == n * p;
    if m < n {
      assert (m + 1) * p <= n * p;
    } else if n < m {
      assert (n + 1) * p <= m * p;
    }
  }

  lemma CheckedPagesAreSeparate(pageSize: nat, pages: seq<usize>)
    requires pageSize > 0
    ensures (forall i: nat :: i < |pages| ==> PageError(pageSize, pages, i) == None)
       <==> PagesAreSeparate(pageSize, pages)
  {
    if forall i: nat :: i < |pages| ==> PageError(pageSize, pages, i) == None {
      forall i, j | 0 <= i < j < |pages|
        ensures pages[i] + pageSize <= pages[j] || pages[j] + pageSize <= pages[i]
      {
        assert PageError(pageSize, pages, i) == None && PageError(pageSize, pages, j) == None;
        assert pages[..j][i] == pages[i];
        DistinctPagesAreDisjoint(pageSize, pages[i], pages[j]);
      }
      forall i | 0 <= i < |pages|
        ensures pages[i] % pageSize == 0 && pages[i] + pageSize <= USIZE_MAX
      {
        assert PageError(pageSize, pages, i) == None;
      }
    }
    if PagesAreSeparate(pageSize, pages) {
      forall i: nat | i < |pages|
        ensures PageError(pageSize, pages, i) == None
      {
        assert forall j :: 0 <= j < i ==> pages[..i][j] == pages[j];
      }
    }
  }

  // The first page that fails its check, and how.
  ghost predicate FirstBadPage(pageSize: nat, pages: seq<usize>, error: LayoutError)
    requires pageSize > 0
  {
    exists i: nat :: i < |pages| && PageError(pageSize, pages, i) == Some(error)
                     && forall j: nat :: j < i ==> PageError(pageSize, pages, j) == None
  }

  // In terms of the pages themselves: every earlier page is fine, and this one is not, for the
  // first of three reasons.
  lemma FirstBadPageIs(pageSize: nat, pages: seq<usize>, error: LayoutError)
    requires pageSize > 0 && FirstBadPage(pageSize, pages, error)
    ensures exists i: nat ::
              && i < |pages|
              && PagesAreSeparate(pageSize, pages[..i])
              && if pages[i] % pageSize != 0 then error == UnalignedAddress
                 else if pages[i] + pageSize > USIZE_MAX then error == AddressOverflow
                 else error == OverlappingPages && exists j :: 0 <= j < i && pages[j] == pages[i]
  {
    var i: nat :| i < |pages| && PageError(pageSize, pages, i) == Some(error)
                  && forall j: nat :: j < i ==> PageError(pageSize, pages, j) == None;
    forall j: nat | j < i
      ensures PageError(pageSize, pages[..i], j) == None
    {
      assert pages[..i][..j] == pages[..j] && PageError(pageSize, pages, j) == None;
    }
    CheckedPagesAreSeparate(pageSize, pages[..i]);
  }

  function Roles(code: usize, privateMemory: usize, stack: usize, ipcBuffer: usize): seq<usize> {
    [code, privateMemory, stack, ipcBuffer]
  }

  method Validate(pageSize: usize, code: usize, entry: usize, privateMemory: usize, stack: usize,
                  ipcBuffer: usize, reserved: seq<usize>)
    returns (r: Result<TaskLayout, LayoutError>)
    ensures var pages := Roles(code, privateMemory, stack, ipcBuffer) + reserved;
            && (r.Ok? <==> IsSomePow2(pageSize) && PagesAreSeparate(pageSize, pages)
                           && EntryIsInCode(pageSize, code, entry))
            && (r.Ok? ==> r.value.stackPointer == stack + pageSize)
            && (r == Err(InvalidPageSize) <==> !IsSomePow2(pageSize))
            && (r == Err(InvalidEntry) ==> PagesAreSeparate(pageSize, pages) && !EntryIsInCode(pageSize, code, entry))
            && (r.Err? && r.error != InvalidPageSize && r.error != InvalidEntry ==>
                  FirstBadPage(pageSize, pages, r.error))
  {
    PowersOfTwoAreExact(pageSize);
    if pageSize == 0 || !IsPowerOfTwo(pageSize) {
      return Err(InvalidPageSize);
    }
    var addresses := Roles(code, privateMemory, stack, ipcBuffer);
    ghost var pages := addresses + reserved;
    CheckedPagesAreSeparate(pageSize, pages);
    for index := 0 to |addresses|
      invariant forall i: nat :: i < index ==> PageError(pageSize, pages, i) == None
    {
      var address := addresses[index];
      assert pages[..index] == addresses[..index] && pages[index] == address;
      ghost var verdict := PageError(pageSize, pages, index);
      if address % pageSize != 0 {
        return Err(UnalignedAddress);
      }
      if CheckedAdd(address, pageSize) == None {
        return Err(AddressOverflow);
      }
      if address in addresses[..index] {
        return Err(OverlappingPages);
      }
    }
    for index := 0 to |reserved|
      invariant forall i: nat :: i < |addresses| + index ==> PageError(pageSize, pages, i) == None
    {
      var address := reserved[index];
      ghost var at := |addresses| + index;
      assert pages[..at] == addresses + reserved[..index] && pages[at] == address;
      ghost var verdict := PageError(pageSize, pages, at);
      if address % pageSize != 0 {
        return Err(UnalignedAddress);
      }
      if CheckedAdd(address, pageSize) == None {
        return Err(AddressOverflow);
      }
      if address in addresses || address in reserved[..index] {
        return Err(OverlappingPages);
      }
    }
    assert pages[0] == code && pages[2] == stack;
    var codeEnd := CheckedAdd(code, pageSize);
    if codeEnd == None {
      assert false;
      return Err(AddressOverflow);
    }
    if entry < code || entry >= codeEnd.value || entry % 4 != 0 {
      return Err(InvalidEntry);
    }
    var stackPointer := CheckedAdd(stack, pageSize);
    if stackPointer == None {
      assert false;
      return Err(AddressOverflow);
    }
    return Ok(TaskLayout(stackPointer.value));
  }
}
