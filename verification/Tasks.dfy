/** Construction of an isolated task as one transaction, and the recovery mapping (task.rs, thread.rs). */
module Tasks {
  import opened Machine
  import opened Kernels
  import opened Boot
  import opened CSpaces
  import opened VSpaces
  import opened Ownership
  import Layout
  import SlotTracking

  datatype TaskConfig = TaskConfig(
    cspaceSizeBits: nat,
    codeFrame: usize,
    codeAddress: usize,
    entry: usize,
    privateMemoryAddress: usize,
    stackAddress: usize,
    ipcBufferAddress: usize,
    reservedPages: seq<usize>,
    initialArguments: seq<usize>,
    delegatedCapabilities: seq<DelegatedCapability>,
    faultRoute: Option<DelegatedCapability>)
  {
    function Pages(): seq<usize> {
      Layout.Roles(codeAddress, privateMemoryAddress, stackAddress, ipcBufferAddress)
    }

    function Delegations(): seq<DelegatedCapability> {
      AllDelegations(delegatedCapabilities, faultRoute)
    }

    function FaultEndpoint(): usize {
      if faultRoute.Some? then faultRoute.value.destination else 0
    }
  }

  // The root slots of a task's page resources.
  datatype TaskPages = TaskPages(privateMemory: usize, stack: usize, ipcBuffer: usize, ipcMapping: usize)

  datatype Task = Task(tcb: usize, cspace: CSpace, vspace: VSpace, pages: TaskPages, rootSlots: Range)

  // A frame capability that owns its memory and maps nothing.
  ghost predicate IsOwnerFrame(s: KernelState, slot: nat, base: nat) {
    slot in s.root && s.root[slot].ObjectCap? && base <= s.root[slot].id
    && s.root[slot] == ObjectCap(FrameKind, s.root[slot].id, ALL_RIGHTS, 0, false)
  }

  function PrivatePage(s: KernelState, slot: nat): Page
    requires slot in s.root && s.root[slot].ObjectCap?
  {
    Page(s.root[slot].id, READ_WRITE)
  }

  // The capabilities behind the four page roles: shared code, and three private frames whose
  // owner capabilities map nothing.
  ghost predicate HasPageCaps(s: KernelState, config: TaskConfig, pages: TaskPages, base: nat) {
    && s.KindAt(config.codeFrame) == Some(FrameKind)
    && IsOwnerFrame(s, pages.privateMemory, base)
    && IsOwnerFrame(s, pages.stack, base)
    && IsOwnerFrame(s, pages.ipcBuffer, base)
    && s.root[config.codeFrame].id < s.root[pages.privateMemory].id
    && s.root[pages.privateMemory].id < s.root[pages.stack].id < s.root[pages.ipcBuffer].id
    && s.KindAt(pages.ipcMapping) == Some(FrameKind)
    && s.root[pages.ipcMapping] == s.root[pages.ipcBuffer].(rights := READ_WRITE, mapped := true)
  }

  // The mappings of the four page roles: code can only be read.
  function RolePages(s: KernelState, config: TaskConfig, pages: TaskPages): map<nat, Page>
    requires s.KindAt(config.codeFrame).Some? && s.KindAt(pages.privateMemory).Some?
    requires s.KindAt(pages.stack).Some? && s.KindAt(pages.ipcBuffer).Some?
  {
    map[
      config.codeAddress := Page(s.root[config.codeFrame].id, s.root[config.codeFrame].rights.And(READ_ONLY)),
      config.privateMemoryAddress := PrivatePage(s, pages.privateMemory),
      config.stackAddress := PrivatePage(s, pages.stack),
      config.ipcBufferAddress := PrivatePage(s, pages.ipcBuffer)]
  }

  // The four pages are mapped, and no other.
  ghost predicate PagesAreMapped(s: KernelState, space: AddressSpace, config: TaskConfig, pages: TaskPages, base: nat) {
    HasPageCaps(s, config, pages, base) && space.pages == RolePages(s, config, pages)
  }

  // `frame` owns new memory, unmapped, and `mapping` is a copy of it mapped at `address`.
  ghost predicate OwnedPageAdded(was: KernelState, s: KernelState, vspace: VSpace, address: usize,
                                 frame: usize, mapping: usize)
    requires was.HasVSpace(vspace.root)
  {
    var space := SpaceOf(was, vspace);
    && s.nextId == was.nextId + 1
    && frame in s.root && s.root[frame] == ObjectCap(FrameKind, was.nextId, ALL_RIGHTS, 0, false)
    && mapping in s.root && s.root[mapping] == ObjectCap(FrameKind, was.nextId, READ_WRITE, 0, true)
    && OnlySpaceChanged(was, s, vspace, space.(pages := space.pages[address := Page(was.nextId, READ_WRITE)]))
  }

  // Makes a frame and maps a copy of it, keeping the owner's capability unmapped.
  method AllocateAndMap(b: Bootstrap, vspace: VSpace, address: usize, ghost base: nat)
    returns (r: Result<(usize, usize), BootstrapError>)
    requires b.Wired() && b.kernel.s.HasVSpace(vspace.root)
    requires base <= b.kernel.s.nextId && base <= b.kernel.s.root[vspace.root].id
    requires CanMap(b.kernel.platform, SpaceOf(b.kernel.s, vspace), address)
    requires address % b.kernel.platform.PageSize() == 0
    modifies b.slots, b.kernel
    ensures b.Wired() && Grew(base, old(b.Now()), b.Now()) && NoCollisions(old(b.Now()), b.Now())
    ensures r.Ok? ==>
              var (frame, mapping) := r.value;
              && frame == old(b.slots.start) && mapping == frame + 1 && b.slots.start == frame + 2
              && OwnedPageAdded(old(b.kernel.s), b.kernel.s, vspace, address, frame, mapping)
    ensures r == Err(NoFreeSlots) ==> old(b.slots.start) + 2 > b.slots.end
    ensures r.Err? ==> b.Explains(|old(b.kernel.log)|, r.error) && r.error != InvalidTaskConfiguration
  {
    ghost var before := b.Now();
    var made := b.AllocateObject(FrameKind, base);
    if made.Err? {
      return Err(made.error);
    }
    ghost var between := b.Now();
    var mapped := VSpaces.MapFrame(b, vspace, made.value, address, READ_WRITE, base);
    GrewThenGrew(base, before, between, b.Now());
    if mapped.Err? {
      return Err(mapped.error);
    }
    assert ALL_RIGHTS.And(READ_WRITE) == READ_WRITE;
    return Ok((made.value, mapped.value));
  }

  // Every page of the layout is aligned and has a complete walk.
  lemma PageHasPath(p: Platform, config: TaskConfig, space: AddressSpace, i: nat)
    requires i < 4 && space.tables == TablesFor(p, config.Pages() + config.reservedPages)
    requires Layout.PagesAreSeparate(p.PageSize(), config.Pages() + config.reservedPages)
    ensures space.HasPath(p, config.Pages()[i]) && config.Pages()[i] % p.PageSize() == 0
  {
    var all := config.Pages() + config.reservedPages;
    assert all[i] == config.Pages()[i] && all[i] in all;
    TablesForCovers(p, all, all[i], space);
  }

  lemma RolesDiffer(p: Platform, config: TaskConfig)
    requires Layout.PagesAreSeparate(p.PageSize(), config.Pages() + config.reservedPages)
    ensures config.codeAddress !in {config.privateMemoryAddress, config.stackAddress, config.ipcBufferAddress}
    ensures config.privateMemoryAddress !in {config.stackAddress, config.ipcBufferAddress}
    ensures config.stackAddress != config.ipcBufferAddress
  {
    var all := config.Pages() + config.reservedPages;
    assert all[0] == config.codeAddress && all[1] == config.privateMemoryAddress
        && all[2] == config.stackAddress && all[3] == config.ipcBufferAddress;
  }

  ghost predicate RootKept(a: KernelState, b: KernelState) {
    forall k :: k in a.root ==> k in b.root && b.root[k] == a.root[k]
  }

  lemma PagesComplete(config: TaskConfig, vspace: VSpace, code: usize, pages: TaskPages, stackMapping: usize,
                      privateMapping: usize, base: nat, s0: KernelState, s1: KernelState, s2: KernelState,
                      s3: KernelState, s4: KernelState)
    requires s0.Consistent() && s0.HasVSpace(vspace.root) && base <= s0.nextId && SpaceOf(s0, vspace).pages == map[]
    requires code !in s0.root && s0.KindAt(config.codeFrame) == Some(FrameKind)
    requires s1 == Mapped(s0, code, config.codeFrame, vspace, config.codeAddress, READ_ONLY)
    requires OwnedPageAdded(s1, s2, vspace, config.privateMemoryAddress, pages.privateMemory, privateMapping)
    requires OwnedPageAdded(s2, s3, vspace, config.stackAddress, pages.stack, stackMapping)
    requires OwnedPageAdded(s3, s4, vspace, config.ipcBufferAddress, pages.ipcBuffer, pages.ipcMapping)
    requires RootKept(s0, s1) && RootKept(s1, s2) && RootKept(s2, s3) && RootKept(s3, s4)
    ensures RootKept(s0, s4) && s4.HasVSpace(vspace.root) && s4.root[vspace.root] == s0.root[vspace.root]
    ensures SpaceOf(s4, vspace).(pages := map[]) == SpaceOf(s0, vspace)
    ensures s4.cnodes == s0.cnodes && s4.threads == s0.threads
    ensures PagesAreMapped(s4, SpaceOf(s4, vspace), config, pages, base)
  {
  }

  // A page of the layout that nothing is mapped at.
  ghost predicate IsFreeRole(p: Platform, config: TaskConfig, space: AddressSpace, i: nat)
    requires i < 4
  {
    && space.hasAsid
    && space.tables == TablesFor(p, config.Pages() + config.reservedPages)
    && config.Pages()[i] !in space.pages
  }

  lemma StillFreeRole(p: Platform, config: TaskConfig, was: KernelState, s: KernelState, vspace: VSpace,
                      address: usize, frame: usize, mapping: usize, i: nat)
    requires was.HasVSpace(vspace.root) && i < 4 && IsFreeRole(p, config, SpaceOf(was, vspace), i)
    requires OwnedPageAdded(was, s, vspace, address, frame, mapping) && config.Pages()[i] != address
    ensures IsFreeRole(p, config, SpaceOf(s, vspace), i)
  {
  }

  // The private page of one role.
  method MapRole(b: Bootstrap, vspace: VSpace, config: TaskConfig, i: nat, address: usize,
                 ghost s0: Snapshot, ghost base: nat)
    returns (r: Result<(usize, usize), BootstrapError>)
    requires i < 4 && address == config.Pages()[i]
    requires b.Wired() && b.kernel.s.HasVSpace(vspace.root)
    requires base <= b.kernel.s.nextId && base <= b.kernel.s.root[vspace.root].id
    requires Layout.PagesAreSeparate(b.kernel.platform.PageSize(), config.Pages() + config.reservedPages)
    requires IsFreeRole(b.kernel.platform, config, SpaceOf(b.kernel.s, vspace), i)
    requires Grew(base, s0, b.Now()) && NoCollisions(s0, b.Now())
    modifies b.slots, b.kernel
    ensures b.Wired() && Grew(base, s0, b.Now()) && NoCollisions(s0, b.Now())
    ensures r.Ok? ==>
              var (frame, mapping) := r.value;
              && frame == old(b.slots.start) && mapping == frame + 1 && b.slots.start == frame + 2
              && OwnedPageAdded(old(b.kernel.s), b.kernel.s, vspace, address, frame, mapping)
              && RootKept(old(b.kernel.s), b.kernel.s)
    ensures r == Err(NoFreeSlots) ==> old(b.slots.start) + 2 > b.slots.end
    ensures r.Err? ==> b.Explains(|s0.log|, r.error) && r.error != InvalidTaskConfiguration
  {
    ghost var between := b.Now();
    PageHasPath(b.kernel.platform, config, SpaceOf(b.kernel.s, vspace), i);
    r := AllocateAndMap(b, vspace, address, base);
    GrewThenGrew(base, s0, between, b.Now());
  }

  // The three private pages, from a state where only the code is mapped.
  method MapPrivatePages(b: Bootstrap, vspace: VSpace, config: TaskConfig, ghost s0: Snapshot, ghost base: nat)
    returns (r: Result<TaskPages, BootstrapError>, ghost s2: KernelState, ghost s3: KernelState,
             ghost privateMapping: usize, ghost stackMapping: usize)
    requires b.Wired() && b.kernel.s.HasVSpace(vspace.root)
    requires base <= b.kernel.s.nextId && base <= b.kernel.s.root[vspace.root].id
    requires Layout.PagesAreSeparate(b.kernel.platform.PageSize(), config.Pages() + config.reservedPages)
    requires SpaceOf(b.kernel.s, vspace).hasAsid
    requires SpaceOf(b.kernel.s, vspace).tables
          == TablesFor(b.kernel.platform, config.Pages() + config.reservedPages)
    requires SpaceOf(b.kernel.s, vspace).pages.Keys == {config.codeAddress}
    requires Grew(base, s0, b.Now()) && NoCollisions(s0, b.Now())
    modifies b.slots, b.kernel
    ensures b.Wired() && Grew(base, s0, b.Now()) && NoCollisions(s0, b.Now())
    ensures r.Ok? ==>
              && b.slots.start == old(b.slots.start) + 6
              && OwnedPageAdded(old(b.kernel.s), s2, vspace, config.privateMemoryAddress,
                                r.value.privateMemory, privateMapping)
              && OwnedPageAdded(s2, s3, vspace, config.stackAddress, r.value.stack, stackMapping)
              && OwnedPageAdded(s3, b.kernel.s, vspace, config.ipcBufferAddress,
                                r.value.ipcBuffer, r.value.ipcMapping)
              && RootKept(old(b.kernel.s), s2) && RootKept(s2, s3) && RootKept(s3, b.kernel.s)
    ensures r == Err(NoFreeSlots) ==> old(b.slots.start) + 6 > b.slots.end
    ensures r.Err? ==> b.Explains(|s0.log|, r.error) && r.error != InvalidTaskConfiguration
  {
    s2, s3, privateMapping, stackMapping := b.kernel.s, b.kernel.s, 0, 0;
    RolesDiffer(b.kernel.platform, config);
    var privateMemory := MapRole(b, vspace, config, 1, config.privateMemoryAddress, s0, base);
    if privateMemory.Err? {
      r := Err(privateMemory.error);
      return;
    }
    StillFreeRole(b.kernel.platform, config, s2, b.kernel.s, vspace, config.privateMemoryAddress,
                  privateMemory.value.0, privateMemory.value.1, 2);
    StillFreeRole(b.kernel.platform, config, s2, b.kernel.s, vspace, config.privateMemoryAddress,
                  privateMemory.value.0, privateMemory.value.1, 3);
    s2, privateMapping := b.kernel.s, privateMemory.value.1;
    var stack := MapRole(b, vspace, config, 2, config.stackAddress, s0, base);
    if stack.Err? {
      r := Err(stack.error);
      return;
    }
    StillFreeRole(b.kernel.platform, config, s2, b.kernel.s, vspace, config.stackAddress,
                  stack.value.0, stack.value.1, 3);
    s3, stackMapping := b.kernel.s, stack.value.1;
    var ipcBuffer := MapRole(b, vspace, config, 3, config.ipcBufferAddress, s0, base);
    if ipcBuffer.Err? {
      r := Err(ipcBuffer.error);
      return;
    }
    r := Ok(TaskPages(privateMemory.value.0, stack.value.0, ipcBuffer.value.0, ipcBuffer.value.1));
  }

  // Maps the shared code read-only, and a new private page for each of the other roles.
  method MapPages(b: Bootstrap, vspace: VSpace, config: TaskConfig, ghost s0: Snapshot, ghost base: nat)
    returns (r: Result<TaskPages, BootstrapError>)
    requires Grew(base, s0, b.Now()) && NoCollisions(s0, b.Now())
    requires b.Wired() && b.kernel.s.HasVSpace(vspace.root)
    requires base <= b.kernel.s.nextId && base <= b.kernel.s.root[vspace.root].id
    requires var p := b.kernel.platform;
             && Layout.PagesAreSeparate(p.PageSize(), config.Pages() + config.reservedPages)
             && SpaceOf(b.kernel.s, vspace)
                == AddressSpace(true, TablesFor(p, config.Pages() + config.reservedPages), map[])
    modifies b.slots, b.kernel
    ensures b.Wired() && Grew(base, s0, b.Now()) && NoCollisions(s0, b.Now())
    ensures r.Ok? ==>
              && b.slots.start == old(b.slots.start) + 7
              && RootKept(old(b.kernel.s), b.kernel.s) && b.kernel.s.HasVSpace(vspace.root)
              && b.kernel.s.root[vspace.root] == old(b.kernel.s.root[vspace.root])
              && SpaceOf(b.kernel.s, vspace).(pages := map[]) == old(SpaceOf(b.kernel.s, vspace))
              && PagesAreMapped(b.kernel.s, SpaceOf(b.kernel.s, vspace), config, r.value, base)
              && b.kernel.s.cnodes == old(b.kernel.s.cnodes) && b.kernel.s.threads == old(b.kernel.s.threads)
    ensures r == Err(NoFreeSlots) ==> old(b.slots.start) + 7 > b.slots.end
    ensures r.Err? ==> b.Explains(|s0.log|, r.error) && r.error != InvalidTaskConfiguration
  {
    ghost var before := b.Now();
    PageHasPath(b.kernel.platform, config, SpaceOf(b.kernel.s, vspace), 0);
    var code := VSpaces.MapFrame(b, vspace, config.codeFrame, config.codeAddress, READ_ONLY, base);
    GrewThenGrew(base, s0, before, b.Now());
    if code.Err? {
      return Err(code.error);
    }
    ghost var s1 := b.kernel.s;
    ghost var s2, s3, privateMapping, stackMapping;
    r, s2, s3, privateMapping, stackMapping := MapPrivatePages(b, vspace, config, s0, base);
    if r.Ok? {
      PagesComplete(config, vspace, code.value, r.value, stackMapping, privateMapping, base,
                    before.kernel, s1, s2, s3, b.kernel.s);
    }
  }

  // A new thread in `slot`, as far as its construction has got.
  function NewThread(s: KernelState, slot: nat, thread: Thread): KernelState {
    s.(root := s.root[slot := ObjectCap(TcbKind, s.nextId, ALL_RIGHTS, 0, false)],
       threads := s.threads[s.nextId := thread],
       nextId := s.nextId + 1)
  }

  lemma ThreadIsMade(p: Platform, s: KernelState, slot: nat, config: TcbConfig, registers: Registers)
    requires slot !in s.root
    ensures Effect(p, s, Retype(0, TcbKind, slot)) == NewThread(s, slot, Thread(None, None))
    ensures var configured := NewThread(s, slot, Thread(Some(config), None));
            && Refusal(p, NewThread(s, slot, Thread(None, None)), Configure(slot, config)) == None
            && Effect(p, NewThread(s, slot, Thread(None, None)), Configure(slot, config)) == configured
            && Refusal(p, configured, WriteRegisters(slot, registers)) == None
            && Effect(p, configured, WriteRegisters(slot, registers))
               == NewThread(s, slot, Thread(Some(config), Some(registers)))
  {
  }

  lemma ThreadGrew(base: nat, a: Snapshot, b: Snapshot, thread: Thread)
    requires a.kernel.Consistent() && base <= a.kernel.nextId
    requires a.slots.start < a.slots.end && a.slots.start !in a.kernel.root
    requires b.slots == a.slots.(start := a.slots.start + 1) && NoDeletes(a, b)
    requires b.kernel == NewThread(a.kernel, a.slots.start, thread)
    ensures Grew(base, a, b)
  {
  }

  // Names the thread's spaces and writes its registers.
  method ConfigureThread(b: Bootstrap, tcb: usize, config: TcbConfig, registers: Registers, ghost before: Snapshot)
    returns (done: bool, ghost thread: Thread)
    requires b.kernel.s.Consistent() && NoDeletes(before, b.Now()) && NoCollisions(before, b.Now())
    requires tcb !in before.kernel.root && b.kernel.s == NewThread(before.kernel, tcb, Thread(None, None))
    modifies b.kernel
    ensures b.kernel.s.Consistent() && NoDeletes(before, b.Now()) && NoCollisions(before, b.Now())
    ensures b.kernel.s == NewThread(before.kernel, tcb, thread)
    ensures done ==> thread == Thread(Some(config), Some(registers))
    ensures !done ==> b.Explains(|before.log|, ThreadConfigurationFailed)
  {
    ThreadIsMade(b.kernel.platform, before.kernel, tcb, config, registers);
    thread := Thread(None, None);
    done := b.Do(Configure(tcb, config), before);
    if done {
      thread := Thread(Some(config), None);
      done := b.Do(WriteRegisters(tcb, registers), before);
      if done {
        thread := Thread(Some(config), Some(registers));
      }
    }
  }

  // Makes a thread that is configured but not running.
  method CreateThread(b: Bootstrap, config: TcbConfig, registers: Registers, ghost base: nat)
    returns (r: Result<usize, BootstrapError>)
    requires b.Wired() && base <= b.kernel.s.nextId
    modifies b.slots, b.kernel
    ensures b.Wired() && Grew(base, old(b.Now()), b.Now()) && NoCollisions(old(b.Now()), b.Now())
    ensures r.Ok? ==>
              && r.value == old(b.slots.start) && b.slots.start == r.value + 1
              && r.value !in old(b.kernel.s.root)
              && b.kernel.s == NewThread(old(b.kernel.s), r.value, Thread(Some(config), Some(registers)))
    ensures r == Err(NoFreeSlots) ==> old(b.slots.start) + 1 > b.slots.end
    ensures r.Err? ==> b.Explains(|old(b.kernel.log)|, r.error) && r.error != InvalidTaskConfiguration
  {
    ghost var before := b.Now();
    var made := b.AllocateObject(TcbKind, base);
    if made.Err? {
      return Err(made.error);
    }
    ThreadIsMade(b.kernel.platform, before.kernel, made.value, config, registers);
    var done;
    ghost var thread;
    done, thread := ConfigureThread(b, made.value, config, registers, before);
    ThreadGrew(base, before, b.Now(), thread);
    return if done then Ok(made.value) else Err(ThreadConfigurationFailed);
  }

  // Whether the configuration, layout aside, is one that the substrate can represent.
  ghost predicate CanBeBuilt(p: Platform, config: TaskConfig) {
    && Installable(config.cspaceSizeBits, config.Delegations())
    && Pow2(config.cspaceSizeBits) <= SlotTracking.MAX_SLOTS
    && !SpansOverflow(p)
  }

  // The address space beside the CSpace that the construction which started at `s0` has made.
  method AddVSpace(b: Bootstrap, config: TaskConfig, cspace: CSpace, ghost s0: Snapshot, ghost base: nat)
    returns (r: Result<VSpace, BootstrapError>)
    requires b.Wired() && Grew(base, s0, b.Now()) && NoCollisions(s0, b.Now()) && base <= b.kernel.s.nextId
    requires cspace.Populated(b.kernel.s, config.Delegations())
    modifies b.slots, b.kernel
    ensures b.Wired() && Grew(base, s0, b.Now()) && NoCollisions(s0, b.Now())
    ensures r.Ok? ==>
              var tables := TablesFor(b.kernel.platform, config.Pages() + config.reservedPages);
              && r.value == VSpace(old(b.slots.start))
              && b.slots.start == old(b.slots.start) + 1 + Total(tables)
              && SpaceAdded(old(b.kernel.s), b.kernel.s, r.value.root, tables)
              && cspace.Populated(b.kernel.s, config.Delegations())
              && b.kernel.s.root[cspace.root] == old(b.kernel.s.root[cspace.root])
    ensures r == Err(NoFreeSlots) ==>
              old(b.slots.start) + 1 + Total(TablesFor(b.kernel.platform, config.Pages() + config.reservedPages))
              > b.slots.end
    ensures r.Err? ==> b.Explains(|s0.log|, r.error)
    ensures r == Err(InvalidTaskConfiguration) ==> SpansOverflow(b.kernel.platform)
  {
    ghost var between := b.Now();
    r := VSpaces.Create(b, config.Pages(), config.reservedPages, base);
    GrewThenGrew(base, s0, between, b.Now());
    if r.Ok? {
      cspace.StillPopulated(between.kernel, b.kernel.s, config.Delegations());
    }
  }

  // The child CSpace and the empty address space.
  method CreateSpaces(b: Bootstrap, config: TaskConfig, ghost base: nat)
    returns (r: Result<(CSpace, VSpace), BootstrapError>)
    requires b.Wired() && base == b.kernel.s.nextId
    modifies b.slots, b.kernel
    ensures b.Wired() && Grew(base, old(b.Now()), b.Now()) && NoCollisions(old(b.Now()), b.Now())
    ensures r.Ok? ==>
              var (cspace, vspace) := r.value;
              var tables := TablesFor(b.kernel.platform, config.Pages() + config.reservedPages);
              && fresh(cspace) && fresh(cspace.slots) && fresh(cspace.slots.states)
              && cspace.Valid() && cspace.sizeBits == config.cspaceSizeBits
              && cspace.root == old(b.slots.start) && vspace.root == cspace.root + 1
              && b.slots.start == old(b.slots.start) + 2 + Total(tables)
              && cspace.Populated(b.kernel.s, config.Delegations())
              && b.kernel.s.root[cspace.root].id == base
              && b.kernel.s.HasVSpace(vspace.root) && b.kernel.s.root[vspace.root].id == base + 1
              && SpaceOf(b.kernel.s, vspace) == AddressSpace(true, tables, map[])
    ensures r == Err(NoFreeSlots) ==>
              old(b.slots.start) + 2 + Total(TablesFor(b.kernel.platform, config.Pages() + config.reservedPages))
              > b.slots.end
    ensures r.Err? ==> b.ExplainsObject(|old(b.kernel.log)|, CNodeKind(config.cspaceSizeBits), r.error)
    ensures r == Err(InvalidTaskConfiguration) ==> !CanBeBuilt(b.kernel.platform, config)
  {
    ghost var before := b.Now();
    var cspace := CSpace.Create(b, config.cspaceSizeBits, config.delegatedCapabilities, config.faultRoute, base);
    if cspace.Err? {
      return Err(cspace.error);
    }
    var vspace := AddVSpace(b, config, cspace.value, before, base);
    return if vspace.Ok? then Ok((cspace.value, vspace.value)) else Err(vspace.error);
  }

  function ThreadOf(config: TaskConfig, stackPointer: usize, cspace: usize, vspace: usize, ipcMapping: usize): Thread {
    Thread(
      Some(TcbConfig(config.FaultEndpoint(), cspace,
                     if config.cspaceSizeBits <= WORD_SIZE then WORD_SIZE - config.cspaceSizeBits else 0,
                     vspace, config.ipcBufferAddress, ipcMapping)),
      Some(Registers(config.entry, stackPointer, config.initialArguments)))
  }

  // Both spaces exactly as configured, out of objects that are all newer than `base`.
  ghost predicate SpacesAreBuilt(p: Platform, config: TaskConfig, s: KernelState, cspace: CSpace, vspace: VSpace,
                                 pages: TaskPages, base: nat)
    reads cspace, cspace.slots, cspace.slots.states
  {
    && cspace.Valid()
    && cspace.sizeBits == config.cspaceSizeBits
    && cspace.Populated(s, config.Delegations())
    && base <= s.root[cspace.root].id
    && s.HasVSpace(vspace.root)
    && base <= s.root[vspace.root].id
    && SpaceOf(s, vspace).hasAsid
    && SpaceOf(s, vspace).tables == TablesFor(p, config.Pages() + config.reservedPages)
    && PagesAreMapped(s, SpaceOf(s, vspace), config, pages, base)
  }

  // The whole protection domain, exactly as configured, out of objects that are all newer than
  // `base`: a CSpace with the delegations only, an address space with the four pages only, and
  // a thread that names these two.
  ghost predicate IsBuiltFrom(p: Platform, config: TaskConfig, s: KernelState, tcb: usize, cspace: CSpace,
                              vspace: VSpace, pages: TaskPages, base: nat)
    reads cspace, cspace.slots, cspace.slots.states
  {
    && SpacesAreBuilt(p, config, s, cspace, vspace, pages, base)
    && s.HasThread(tcb)
    && base <= s.root[tcb].id
    && config.stackAddress + p.PageSize() <= USIZE_MAX
    && s.threads[s.root[tcb].id]
       == ThreadOf(config, config.stackAddress + p.PageSize(), cspace.root, vspace.root, pages.ipcMapping)
  }

  ghost predicate IsBuilt(p: Platform, config: TaskConfig, s: KernelState, task: Task, base: nat)
    reads task.cspace, task.cspace.slots, task.cspace.slots.states
  {
    IsBuiltFrom(p, config, s, task.tcb, task.cspace, task.vspace, task.pages, base)
  }

  // The ten root slots every task takes, and one for each translation table.
  function RootSlotsNeeded(p: Platform, config: TaskConfig): nat {
    10 + SpanCount(p, config.Pages() + config.reservedPages, p.Levels())
  }

  lemma NewThreadKeepsPages(config: TaskConfig, s: KernelState, slot: nat, thread: Thread, vspace: VSpace,
                            pages: TaskPages, base: nat)
    requires s.Consistent() && slot !in s.root && s.HasVSpace(vspace.root)
    requires PagesAreMapped(s, SpaceOf(s, vspace), config, pages, base)
    ensures var t := NewThread(s, slot, thread);
            && t.HasVSpace(vspace.root) && t.root[vspace.root] == s.root[vspace.root]
            && SpaceOf(t, vspace) == SpaceOf(s, vspace)
            && PagesAreMapped(t, SpaceOf(t, vspace), config, pages, base)
  {
  }

  lemma ThreadCompletes(p: Platform, config: TaskConfig, s: KernelState, tcb: usize, cspace: CSpace, vspace: VSpace,
                        pages: TaskPages, base: nat, thread: Thread, t: KernelState)
    requires s.Consistent() && tcb !in s.root && base <= s.nextId
    requires config.stackAddress + p.PageSize() <= USIZE_MAX
    requires SpacesAreBuilt(p, config, s, cspace, vspace, pages, base)
    requires thread == ThreadOf(config, config.stackAddress + p.PageSize(), cspace.root, vspace.root, pages.ipcMapping)
    requires t == NewThread(s, tcb, thread)
    ensures IsBuiltFrom(p, config, t, tcb, cspace, vspace, pages, base)
  {
    NewThreadKeepsPages(config, s, tcb, thread, vspace, pages, base);
    cspace.StillPopulated(s, t, config.Delegations());
  }

  // Both spaces, with the pages of the four roles mapped.
  method CreateMappedSpaces(b: Bootstrap, config: TaskConfig, ghost base: nat)
    returns (r: Result<(CSpace, VSpace, TaskPages), BootstrapError>)
    requires b.Wired() && base == b.kernel.s.nextId
    requires Layout.PagesAreSeparate(b.kernel.platform.PageSize(), config.Pages() + config.reservedPages)
    modifies b.slots, b.kernel
    ensures b.Wired() && Grew(base, old(b.Now()), b.Now()) && NoCollisions(old(b.Now()), b.Now())
    ensures r.Ok? ==>
              var (cspace, vspace, pages) := r.value;
              var tables := TablesFor(b.kernel.platform, config.Pages() + config.reservedPages);
              && fresh(cspace) && fresh(cspace.slots) && fresh(cspace.slots.states)
              && b.slots.start == old(b.slots.start) + 9 + Total(tables)
              && SpacesAreBuilt(b.kernel.platform, config, b.kernel.s, cspace, vspace, pages, base)
    ensures r == Err(NoFreeSlots) ==>
              old(b.slots.start) + 9 + Total(TablesFor(b.kernel.platform, config.Pages() + config.reservedPages))
              > b.slots.end
    ensures r.Err? ==> b.ExplainsObject(|old(b.kernel.log)|, CNodeKind(config.cspaceSizeBits), r.error)
    ensures r == Err(InvalidTaskConfiguration) ==> !CanBeBuilt(b.kernel.platform, config)
  {
    ghost var s0 := b.Now();
    var spaces := CreateSpaces(b, config, base);
    if spaces.Err? {
      return Err(spaces.error);
    }
    var (cspace, vspace) := spaces.value;
    ghost var s1 := b.Now();
    var pages := MapPages(b, vspace, config, s0, base);
    if pages.Ok? {
      cspace.StillPopulated(s1.kernel, b.kernel.s, config.Delegations());
    }
    return if pages.Ok? then Ok((cspace, vspace, pages.value)) else Err(pages.error);
  }

  lemma SlotsAddUp(p: Platform, config: TaskConfig)
    ensures 10 + Total(TablesFor(p, config.Pages() + config.reservedPages)) == RootSlotsNeeded(p, config)
  {
    var all := config.Pages() + config.reservedPages;
    TotalIsSpanCount(p, all, p.Levels());
    assert TablesFor(p, all)[..p.Levels()] == TablesFor(p, all);
  }

  // The thread that names both spaces.
  method FinishTask(b: Bootstrap, config: TaskConfig, stackPointer: usize, cspace: CSpace, vspace: VSpace,
                    pages: TaskPages, ghost base: nat)
    returns (r: Result<usize, BootstrapError>)
    requires b.Wired() && base <= b.kernel.s.nextId
    requires SpacesAreBuilt(b.kernel.platform, config, b.kernel.s, cspace, vspace, pages, base)
    requires stackPointer == config.stackAddress + b.kernel.platform.PageSize()
    modifies b.slots, b.kernel
    ensures b.Wired() && Grew(base, old(b.Now()), b.Now()) && NoCollisions(old(b.Now()), b.Now())
    ensures r.Ok? ==>
              && IsBuiltFrom(b.kernel.platform, config, b.kernel.s, r.value, cspace, vspace, pages, base)
              && b.slots.start == old(b.slots.start) + 1
    ensures r == Err(NoFreeSlots) ==> old(b.slots.start) + 1 > b.slots.end
    ensures r.Err? ==> b.Explains(|old(b.kernel.log)|, r.error) && r.error != InvalidTaskConfiguration
  {
    ghost var before := b.kernel.s;
    var thread := ThreadOf(config, stackPointer, cspace.root, vspace.root, pages.ipcMapping);
    r := CreateThread(b, thread.config.value, thread.registers.value, base);
    if r.Ok? {
      ThreadCompletes(b.kernel.platform, config, before, r.value, cspace, vspace, pages, base, thread, b.kernel.s);
    }
  }

  // Everything that belongs to the task, made in the order of its dependencies.
  method BuildParts(b: Bootstrap, config: TaskConfig, layout: Layout.TaskLayout, ghost base: nat)
    returns (r: Result<(usize, CSpace, VSpace, TaskPages), BootstrapError>)
    requires b.Wired() && base == b.kernel.s.nextId
    requires Layout.PagesAreSeparate(b.kernel.platform.PageSize(), config.Pages() + config.reservedPages)
    requires layout.stackPointer == config.stackAddress + b.kernel.platform.PageSize()
    modifies b.slots, b.kernel
    ensures b.Wired() && Grew(base, old(b.Now()), b.Now()) && NoCollisions(old(b.Now()), b.Now())
    ensures r.Ok? ==>
              var (tcb, cspace, vspace, pages) := r.value;
              && fresh(cspace) && fresh(cspace.slots) && fresh(cspace.slots.states)
              && IsBuiltFrom(b.kernel.platform, config, b.kernel.s, tcb, cspace, vspace, pages, base)
              && b.slots.start == old(b.slots.start) + RootSlotsNeeded(b.kernel.platform, config)
    ensures r == Err(NoFreeSlots) ==> old(b.slots.start) + RootSlotsNeeded(b.kernel.platform, config) > b.slots.end
    ensures r.Err? ==> b.ExplainsObject(|old(b.kernel.log)|, CNodeKind(config.cspaceSizeBits), r.error)
    ensures r == Err(InvalidTaskConfiguration) ==> !CanBeBuilt(b.kernel.platform, config)
  {
    ghost var s0 := b.Now();
    SlotsAddUp(b.kernel.platform, config);
    var spaces := CreateMappedSpaces(b, config, base);
    if spaces.Err? {
      return Err(spaces.error);
    }
    var (cspace, vspace, pages) := spaces.value;
    ghost var between := b.Now();
    var tcb := FinishTask(b, config, layout.stackPointer, cspace, vspace, pages, base);
    GrewThenGrew(base, s0, between, b.Now());
    return if tcb.Ok? then Ok((tcb.value, cspace, vspace, pages)) else Err(tcb.error);
  }

  // Construction proper: each step either extends what the ones before it made, or stops.
  method CreateTaskInner(b: Bootstrap, config: TaskConfig, layout: Layout.TaskLayout, checkpoint: usize)
    returns (r: Result<Task, BootstrapError>)
    requires b.Wired() && checkpoint == b.slots.start
    requires Layout.PagesAreSeparate(b.kernel.platform.PageSize(), config.Pages() + config.reservedPages)
    requires layout.stackPointer == config.stackAddress + b.kernel.platform.PageSize()
    modifies b.slots, b.kernel
    ensures b.Wired() && Grew(old(b.kernel.s.nextId), old(b.Now()), b.Now()) && NoCollisions(old(b.Now()), b.Now())
    ensures r.Ok? ==>
              && fresh(r.value.cspace) && fresh(r.value.cspace.slots) && fresh(r.value.cspace.slots.states)
              && IsBuilt(b.kernel.platform, config, b.kernel.s, r.value, old(b.kernel.s.nextId))
              && r.value.rootSlots == Range(old(b.slots.start), b.slots.start)
              && b.slots.start == old(b.slots.start) + RootSlotsNeeded(b.kernel.platform, config)
    ensures r == Err(NoFreeSlots) ==> old(b.slots.start) + RootSlotsNeeded(b.kernel.platform, config) > b.slots.end
    ensures r.Err? ==> b.ExplainsObject(|old(b.kernel.log)|, CNodeKind(config.cspaceSizeBits), r.error)
    ensures r == Err(InvalidTaskConfiguration) ==> !CanBeBuilt(b.kernel.platform, config)
  {
    var parts := BuildParts(b, config, layout, b.kernel.s.nextId);
    if parts.Err? {
      return Err(parts.error);
    }
    var (tcb, cspace, vspace, pages) := parts.value;
    var rootSlots := b.CommittedSlots(checkpoint);
    if rootSlots.Err? {
      assert false;
      return Err(RollbackFailed);
    }
    return Ok(Task(tcb, cspace, vspace, pages, rootSlots.value));
  }

  ghost predicate LayoutIsValid(p: Platform, config: TaskConfig) {
    && Layout.PagesAreSeparate(p.PageSize(), config.Pages() + config.reservedPages)
    && Layout.EntryIsInCode(p.PageSize(), config.codeAddress, config.entry)
  }

  lemma UndoLog(base: nat, a: Snapshot, mid: Snapshot, b: Snapshot, low: nat, stopped: bool, failed: bool,
                error: BootstrapError)
    requires Grew(base, a, mid) && mid.log <= b.log
    requires DeletedDownTo(b.log[|mid.log|..], low, mid.slots.start, stopped)
    requires failed ==> |a.log| < |mid.log| && mid.log[|mid.log| - 1].outcome != Done
                        && error == FailureOf(mid.log[|mid.log| - 1].call, mid.log[|mid.log| - 1].outcome)
    ensures a.log <= b.log
    ensures NoCollisions(a, mid) ==> NoCollisions(a, b)
    ensures DeleteFailed(a, b) <==> stopped
    ensures failed ==> StoppedBy(a, b, error)
  {
    RollbackLog(a, mid, b, low, mid.slots.start, stopped);
    if failed {
      RollbackCause(a, mid, b);
    }
  }

  // Undoes a construction that stopped: either all of its slots are emptied and given back, or
  // the kernel kept one and every slot from `low` on is empty but lost.
  method Undo(b: Bootstrap, checkpoint: usize, ghost a: Snapshot, ghost base: nat, ghost error: BootstrapError)
    returns (r: Result<(), BootstrapError>, ghost low: nat)
    requires b.Wired() && Grew(base, a, b.Now()) && checkpoint == a.slots.start && a.slots.Valid()
    modifies b.slots, b.kernel
    ensures b.Wired()
    ensures a.log <= b.kernel.log && (NoCollisions(a, old(b.Now())) ==> NoCollisions(a, b.Now()))
    ensures r.Ok? <==> !DeleteFailed(a, b.Now())
    ensures r.Err? ==> r.error == RollbackFailed
    ensures old(b.LastCallFailed(|a.log|, error)) ==> StoppedBy(a, b.Now(), error)
    ensures checkpoint <= low <= old(b.slots.start)
    ensures if r.Ok? then low == checkpoint && b.slots.State() == old(b.slots.State()).(start := checkpoint)
            else checkpoint < low && b.slots.State() == old(b.slots.State())
    ensures b.kernel.s == old(b.kernel.s).(root := old(b.kernel.s).root - Span(low, old(b.slots.start)))
  {
    ghost var mid, failed := b.Now(), b.LastCallFailed(|a.log|, error);
    r, low := b.Rollback(checkpoint);
    UndoLog(base, a, mid, b.Now(), low, r.Err?, failed, error);
  }

  lemma UndoState(base: nat, a: Snapshot, mid: Snapshot, b: Snapshot, low: nat, stopped: bool)
    requires Grew(base, a, mid) && forall k :: a.slots.start <= k < a.slots.end ==> k !in a.kernel.root
    requires a.slots.start <= low <= mid.slots.start <= mid.slots.end
    requires if stopped then a.slots.start < low && b.slots == mid.slots
             else low == a.slots.start && b.slots == mid.slots.(start := a.slots.start)
    requires b.kernel == mid.kernel.(root := mid.kernel.root - Span(low, mid.slots.start))
    ensures !stopped ==> Restored(base, a, b) && b.kernel == mid.kernel.(root := a.kernel.root)
    ensures stopped ==> OnlyLeaked(base, a, b)
  {
    if stopped {
      PartlyEmptied(base, a, mid, b.kernel.root, low);
    } else {
      EmptyingRestores(base, a, mid, b);
    }
  }

  // The error tells why the construction stopped: too few slots or too little memory to begin
  // with, a configuration that cannot be represented, or the very call that did not succeed.
  ghost predicate IsCause(b: Bootstrap, config: TaskConfig, s0: Snapshot, error: BootstrapError)
    reads b.slots, b.kernel
  {
    match error
    case NoFreeSlots => s0.slots.start + RootSlotsNeeded(b.kernel.platform, config) > s0.slots.end
    case InvalidTaskConfiguration => !CanBeBuilt(b.kernel.platform, config)
    case NoKernelMemory =>
      b.AFixedKindDoesNotFit() || b.DoesNotFit(CNodeKind(config.cspaceSizeBits)) || StoppedBy(s0, b.Now(), error)
    case RollbackFailed => DeleteFailed(s0, b.Now())
    case _ => StoppedBy(s0, b.Now(), error)
  }

  // The end of a construction that stopped with `error`: undone, it reports that error.
  method UndoTask(b: Bootstrap, config: TaskConfig, checkpoint: usize, error: BootstrapError, ghost s0: Snapshot)
    returns (reported: BootstrapError)
    requires b.Wired() && Grew(s0.kernel.nextId, s0, b.Now()) && NoCollisions(s0, b.Now())
    requires checkpoint == s0.slots.start && s0.slots.Valid()
    requires forall k :: s0.slots.start <= k < s0.slots.end ==> k !in s0.kernel.root
    requires b.ExplainsObject(|s0.log|, CNodeKind(config.cspaceSizeBits), error)
    requires error == NoFreeSlots ==> s0.slots.start + RootSlotsNeeded(b.kernel.platform, config) > b.slots.end
    requires error == InvalidTaskConfiguration ==> !CanBeBuilt(b.kernel.platform, config)
    modifies b.slots, b.kernel
    ensures b.Wired() && NoCollisions(s0, b.Now())
    ensures reported == RollbackFailed <==> DeleteFailed(s0, b.Now())
    ensures reported != RollbackFailed ==> reported == error && Restored(s0.kernel.nextId, s0, b.Now())
    ensures reported == RollbackFailed ==> OnlyLeaked(s0.kernel.nextId, s0, b.Now())
    ensures IsCause(b, config, s0, reported)
  {
    ghost var mid := b.Now();
    ghost var low;
    var undone;
    undone, low := Undo(b, checkpoint, s0, s0.kernel.nextId, error);
    UndoState(s0.kernel.nextId, s0, mid, b.Now(), low, undone.Err?);
    return if undone.Err? then RollbackFailed else error;
  }

  lemma NothingLeavesAlone(s: KernelState)
    ensures LeavesAlone({}, s, s)
  {
  }

  // However a construction ends, it changes nothing that was there before.
  lemma ConstructionLeavesAlone(a: Snapshot, b: Snapshot)
    requires a.kernel.Consistent() && IsConstruction(a, b)
    ensures LeavesAlone({}, a.kernel, b.kernel) && RootGrew(a, b)
  {
  }

  // The construction and, if it stopped, its undoing.
  method CreateOrUndo(b: Bootstrap, config: TaskConfig, layout: Layout.TaskLayout)
    returns (r: Result<Task, BootstrapError>)
    requires b.Wired()
    requires Layout.PagesAreSeparate(b.kernel.platform.PageSize(), config.Pages() + config.reservedPages)
    requires layout.stackPointer == config.stackAddress + b.kernel.platform.PageSize()
    modifies b.slots, b.kernel
    ensures b.Wired() && NoCollisions(old(b.Now()), b.Now())
    ensures r.Ok? ==>
              && fresh(r.value.cspace) && fresh(r.value.cspace.slots) && fresh(r.value.cspace.slots.states)
              && IsBuilt(b.kernel.platform, config, b.kernel.s, r.value, old(b.kernel.s.nextId))
              && Grew(old(b.kernel.s.nextId), old(b.Now()), b.Now())
              && r.value.rootSlots == Range(old(b.slots.start), b.slots.start)
              && b.slots.start == old(b.slots.start) + RootSlotsNeeded(b.kernel.platform, config)
    ensures r == Err(RollbackFailed) <==> DeleteFailed(old(b.Now()), b.Now())
    ensures r.Err? && r.error != RollbackFailed ==> Restored(old(b.kernel.s.nextId), old(b.Now()), b.Now())
    ensures r.Err? ==> IsCause(b, config, old(b.Now()), r.error)
    ensures r == Err(RollbackFailed) ==> OnlyLeaked(old(b.kernel.s.nextId), old(b.Now()), b.Now())
    ensures LeavesAlone({}, old(b.kernel.s), b.kernel.s)
  {
    ghost var s0 := b.Now();
    var checkpoint := b.Checkpoint();
    r := CreateTaskInner(b, config, layout, checkpoint);
    if r.Err? {
      var reported := UndoTask(b, config, checkpoint, r.error, s0);
      r := Err(reported);
    }
    ConstructionLeavesAlone(s0, b.Now());
  }

  // The grants after a construction: one more if it succeeded.
  ghost function GrantsAfter(grants: seq<Grant>, owner: Owner, ok: bool, lo: nat, hi: nat): seq<Grant> {
    if ok then grants + [Grant(owner, lo, hi)] else grants
  }

  // What a construction means for the ledger: a new owner, nothing, or lost slots.
  lemma ConstructionStep(s0: Snapshot, s1: Snapshot, grants: seq<Grant>, owner: Owner, stopped: bool, restored: bool)
    requires var a := LedgerOf(s0, grants);
             && a.Sound() && s1.slots.first == a.first && s1.slots.end == a.end && owner != PoolOwner
             && a.start <= s1.slots.start <= a.end
             && (restored ==> stopped && s1.slots == s0.slots && s1.kernel.root == s0.kernel.root)
             && (!stopped ==> forall k :: k in s1.kernel.root <==> k in a.filled || a.start <= k < s1.slots.start)
             && (stopped && !restored ==> RootGrew(s0, s1))
    ensures var b := LedgerOf(s1, GrantsAfter(grants, owner, !stopped, s0.slots.start, s1.slots.start));
            && Step(LedgerOf(s0, grants), if restored then Unchanged else if stopped then Leaked else Granted(owner), b)
            && b.Sound()
  {
    StepKeepsSound(LedgerOf(s0, grants), if restored then Unchanged else if stopped then Leaked else Granted(owner),
                   LedgerOf(s1, GrantsAfter(grants, owner, !stopped, s0.slots.start, s1.slots.start)));
  }

  // Constructs a suspended task, or leaves no trace of it in the root CSpace.
  method CreateTask(b: Bootstrap, config: TaskConfig, ghost grants: seq<Grant>)
    returns (r: Result<Task, BootstrapError>)
    requires b.Valid(grants) && b.kernel.platform.PageSize() <= USIZE_MAX
    modifies b.slots, b.kernel
    ensures !LayoutIsValid(b.kernel.platform, config) ==>
              r == Err(InvalidTaskConfiguration) && b.Now() == old(b.Now())
    ensures NoCollisions(old(b.Now()), b.Now())
    ensures r.Ok? ==>
              && fresh(r.value.cspace) && fresh(r.value.cspace.slots) && fresh(r.value.cspace.slots.states)
              && IsBuilt(b.kernel.platform, config, b.kernel.s, r.value, old(b.kernel.s.nextId))
              && Grew(old(b.kernel.s.nextId), old(b.Now()), b.Now())
              && r.value.rootSlots == Range(old(b.slots.start), b.slots.start)
              && r.value.rootSlots.Len() == RootSlotsNeeded(b.kernel.platform, config)
    ensures r == Err(RollbackFailed) <==> DeleteFailed(old(b.Now()), b.Now())
    ensures r.Err? && r.error != RollbackFailed ==> Restored(old(b.kernel.s.nextId), old(b.Now()), b.Now())
    ensures r == Err(RollbackFailed) ==> OnlyLeaked(old(b.kernel.s.nextId), old(b.Now()), b.Now())
    ensures LeavesAlone({}, old(b.kernel.s), b.kernel.s)
    ensures r.Err? && LayoutIsValid(b.kernel.platform, config) ==> IsCause(b, config, old(b.Now()), r.error)
    ensures b.Valid(GrantsAfter(grants, TaskOwner, r.Ok?, old(b.slots.start), b.slots.start))
    ensures Step(LedgerOf(old(b.Now()), grants),
                 if r.Ok? then Granted(TaskOwner) else if r.error == RollbackFailed then Leaked else Unchanged,
                 LedgerOf(b.Now(), GrantsAfter(grants, TaskOwner, r.Ok?, old(b.slots.start), b.slots.start)))
  {
    ghost var s0 := b.Now();
    var layout := Layout.Validate(b.kernel.platform.PageSize(), config.codeAddress, config.entry,
                                  config.privateMemoryAddress, config.stackAddress, config.ipcBufferAddress,
                                  config.reservedPages);
    if layout.Err? {
      NothingLeavesAlone(b.kernel.s);
      return Err(InvalidTaskConfiguration);
    }
    r := CreateOrUndo(b, config, layout.value);
    ConstructionStep(s0, b.Now(), grants, TaskOwner, r.Err?, r.Err? && r.error != RollbackFailed);
  }

  // The protection domain as far as the kernel knows it, perhaps with more in it by now: the
  // delegations are held, the tables and the four pages are in place, and the thread names the
  // two spaces.
  ghost predicate IsConfigured(p: Platform, config: TaskConfig, s: KernelState, task: Task, base: nat) {
    && s.HasCNode(task.cspace.root) && s.root[task.cspace.root].kind == CNodeKind(config.cspaceSizeBits)
    && base <= s.root[task.cspace.root].id
    && HoldsDelegations(s.cnodes[s.root[task.cspace.root].id], s.root, config.Delegations())
    && s.HasVSpace(task.vspace.root)
    && base <= s.root[task.vspace.root].id
    && SpaceOf(s, task.vspace).hasAsid
    && SpaceOf(s, task.vspace).tables == TablesFor(p, config.Pages() + config.reservedPages)
    && HasPageCaps(s, config, task.pages, base)
    && Includes(SpaceOf(s, task.vspace).pages, RolePages(s, config, task.pages))
    && s.HasThread(task.tcb)
    && base <= s.root[task.tcb].id
    && config.stackAddress + p.PageSize() <= USIZE_MAX
    && s.threads[s.root[task.tcb].id]
       == ThreadOf(config, config.stackAddress + p.PageSize(), task.cspace.root, task.vspace.root,
                   task.pages.ipcMapping)
  }

  lemma BuiltIsConfigured(p: Platform, config: TaskConfig, s: KernelState, task: Task, base: nat)
    requires IsBuilt(p, config, s, task, base)
    ensures IsConfigured(p, config, s, task, base)
  {
  }

  // What the thread of a built task was given, field by field: it starts at the entry with the
  // stack pointer one past the stack page, in its own two spaces, with an IPC buffer of its own;
  // its faults go to the route's slot, if there is a route; and every slot of its CNode is
  // addressed with all 64 bits of a word.
  lemma BuiltThread(p: Platform, config: TaskConfig, s: KernelState, task: Task, base: nat)
    requires IsBuilt(p, config, s, task, base)
    ensures var thread := s.threads[s.root[task.tcb].id];
            && thread.registers.Some? && thread.config.Some?
            && thread.registers.value.pc == config.entry
            && thread.registers.value.sp == config.stackAddress + p.PageSize()
            && thread.registers.value.arguments == config.initialArguments
            && thread.config.value.cspace == task.cspace.root
            && thread.config.value.guardBits + config.cspaceSizeBits == 64
            && thread.config.value.vspace == task.vspace.root
            && thread.config.value.ipcBuffer == config.ipcBufferAddress
            && thread.config.value.ipcMapping == task.pages.ipcMapping
            && (config.faultRoute.Some? ==> thread.config.value.faultEndpoint == config.faultRoute.value.destination)
            && (config.faultRoute.None? ==> thread.config.value.faultEndpoint == 0)
  {
  }

  // What its pages allow: code can at most be read, and never through more rights than the root
  // task holds; the other three are read and written, and none can pass capabilities on.
  lemma BuiltPages(p: Platform, config: TaskConfig, s: KernelState, task: Task, base: nat)
    requires Layout.PagesAreSeparate(p.PageSize(), config.Pages() + config.reservedPages)
    requires IsBuilt(p, config, s, task, base)
    ensures var pages := SpaceOf(s, task.vspace).pages;
            && pages.Keys == {config.codeAddress, config.privateMemoryAddress, config.stackAddress,
                              config.ipcBufferAddress}
            && pages[config.codeAddress].frame == s.root[config.codeFrame].id
            && !pages[config.codeAddress].rights.write && !pages[config.codeAddress].rights.grant
            && (pages[config.codeAddress].rights.read <==> s.root[config.codeFrame].rights.read)
            && pages[config.privateMemoryAddress].frame == s.root[task.pages.privateMemory].id
            && pages[config.stackAddress].frame == s.root[task.pages.stack].id
            && pages[config.ipcBufferAddress].frame == s.root[task.pages.ipcBuffer].id
            && forall a :: a in pages && a != config.codeAddress ==>
                 pages[a].rights.read && pages[a].rights.write && !pages[a].rights.grant
  {
    RolesDiffer(p, config);
  }

  // What its CNode holds: at each delegated slot the same object as the source, with a right only
  // if both the source and the delegation have it, and with the badge that was asked for.
  lemma BuiltDelegations(p: Platform, config: TaskConfig, s: KernelState, task: Task, base: nat,
                         d: DelegatedCapability)
    requires IsBuilt(p, config, s, task, base)
    requires d in config.delegatedCapabilities || config.faultRoute == Some(d)
    ensures var held := s.cnodes[s.root[task.cspace.root].id];
            && d.source in s.root && s.root[d.source].ObjectCap?
            && d.destination in held && held[d.destination].ObjectCap?
            && var source, cap := s.root[d.source], held[d.destination];
               && cap.id == source.id && cap.kind == source.kind && !cap.mapped
               && (cap.rights.read <==> source.rights.read && d.rights.read)
               && (cap.rights.write <==> source.rights.write && d.rights.write)
               && (cap.rights.grant <==> source.rights.grant && d.rights.grant)
               && cap.badge == if d.badge == 0 then source.badge else d.badge
  {
    var all := config.Delegations();
    if config.faultRoute == Some(d) {
      assert all[|config.delegatedCapabilities|] == d;
    } else {
      var i :| 0 <= i < |config.delegatedCapabilities| && config.delegatedCapabilities[i] == d;
      assert all[i] == d;
    }
  }

  // The objects a task is made of.
  ghost function ObjectsOf(s: KernelState, task: Task): set<nat>
    requires s.HasCNode(task.cspace.root) && s.HasVSpace(task.vspace.root) && s.HasThread(task.tcb)
  {
    {s.root[task.cspace.root].id, s.root[task.vspace.root].id, s.root[task.tcb].id}
  }

  // A configured task stays so through whatever happens, in its own objects too: its recovery
  // mappings and received capabilities only add to what is there.
  lemma ConfiguredTaskStays(p: Platform, config: TaskConfig, s: KernelState, t: KernelState, touched: set<nat>,
                            task: Task, base: nat)
    requires IsConfigured(p, config, s, task, base) && LeavesAlone(touched, s, t)
    ensures IsConfigured(p, config, t, task, base) && ObjectsOf(t, task) == ObjectsOf(s, task)
  {
    assert HoldsDelegations(t.cnodes[t.root[task.cspace.root].id], t.root, config.Delegations());
    assert RolePages(t, config, task.pages) == RolePages(s, config, task.pages);
  }

  // A reserved page of a task has its tables: while nothing is mapped there, a recovery mapping
  // can neither lack a table nor meet a taken entry, whatever the task did in between.
  lemma RecoveryHasTables(p: Platform, config: TaskConfig, s: KernelState, task: Task, base: nat, address: usize)
    requires LayoutIsValid(p, config) && IsConfigured(p, config, s, task, base)
    requires address in config.reservedPages
    ensures address % p.PageSize() == 0
    ensures address !in SpaceOf(s, task.vspace).pages ==> CanMap(p, SpaceOf(s, task.vspace), address)
    ensures address !in RolePages(s, config, task.pages)
  {
    var all := config.Pages() + config.reservedPages;
    var i :| 0 <= i < |config.reservedPages| && config.reservedPages[i] == address;
    assert all[4 + i] == address;
    assert forall j :: 0 <= j < 4 ==> all[j] == config.Pages()[j];
    assert config.Pages()[0] == config.codeAddress && config.Pages()[1] == config.privateMemoryAddress
        && config.Pages()[2] == config.stackAddress && config.Pages()[3] == config.ipcBufferAddress;
    TablesForCovers(p, all, address, SpaceOf(s, task.vspace));
  }

  // The task's three objects hold exactly what they held.
  ghost predicate SameTask(s: KernelState, t: KernelState, task: Task)
    requires s.HasCNode(task.cspace.root) && s.HasVSpace(task.vspace.root) && s.HasThread(task.tcb)
  {
    && t.HasCNode(task.cspace.root) && t.HasVSpace(task.vspace.root) && t.HasThread(task.tcb)
    && t.root[task.cspace.root] == s.root[task.cspace.root]
    && t.root[task.vspace.root] == s.root[task.vspace.root]
    && t.root[task.tcb] == s.root[task.tcb]
    && t.cnodes[t.root[task.cspace.root].id] == s.cnodes[s.root[task.cspace.root].id]
    && SpaceOf(t, task.vspace) == SpaceOf(s, task.vspace)
    && t.threads[t.root[task.tcb].id] == s.threads[s.root[task.tcb].id]
  }

  lemma UntouchedTaskIsSame(s: KernelState, t: KernelState, touched: set<nat>, task: Task)
    requires s.Consistent() && LeavesAlone(touched, s, t)
    requires s.HasCNode(task.cspace.root) && s.HasVSpace(task.vspace.root) && s.HasThread(task.tcb)
    requires touched !! ObjectsOf(s, task)
    ensures SameTask(s, t, task)
  {
  }

  // A task whose objects hold what they held when it was built still is exactly as built.
  lemma SameTaskIsBuilt(p: Platform, config: TaskConfig, s: KernelState, t: KernelState, task: Task, base: nat)
    requires IsBuilt(p, config, s, task, base) && IsConfigured(p, config, t, task, base) && SameTask(s, t, task)
    ensures IsBuilt(p, config, t, task, base)
  {
    assert SpaceOf(t, task.vspace).pages == RolePages(t, config, task.pages);
  }

  // A built task stays exactly as configured through whatever happens outside its own objects.
  lemma BuiltTaskStays(p: Platform, config: TaskConfig, s: KernelState, t: KernelState, touched: set<nat>,
                       task: Task, base: nat)
    requires s.Consistent() && IsBuilt(p, config, s, task, base)
    requires LeavesAlone(touched, s, t) && touched !! ObjectsOf(s, task)
    ensures IsBuilt(p, config, t, task, base) && ObjectsOf(t, task) == ObjectsOf(s, task)
  {
    BuiltIsConfigured(p, config, s, task, base);
    ConfiguredTaskStays(p, config, s, t, touched, task, base);
    UntouchedTaskIsSame(s, t, touched, task);
    SameTaskIsBuilt(p, config, s, t, task, base);
  }

  // So a built task stays exactly as configured through any later construction, one that
  // succeeds as well as one that is undone or whose undoing is interrupted.
  lemma LaterConstructionsLeaveTask(p: Platform, config: TaskConfig, a: Snapshot, b: Snapshot, task: Task, base: nat)
    requires a.kernel.Consistent() && IsBuilt(p, config, a.kernel, task, base)
    requires IsConstruction(a, b)
    ensures IsBuilt(p, config, b.kernel, task, base)
  {
    ConstructionLeavesAlone(a, b);
    BuiltTaskStays(p, config, a.kernel, b.kernel, {}, task, base);
  }

  datatype TaskMapping = TaskMapping(mapping: usize, rootSlot: usize)

  ghost predicate OnlyRootChanged(a: KernelState, b: KernelState) {
    b.(root := a.root) == a
  }

  // The mapping and, if it stopped, its undoing.
  method MapOrUndo(b: Bootstrap, vspace: VSpace, frame: usize, address: usize)
    returns (r: Result<TaskMapping, BootstrapError>)
    requires b.Wired() && b.kernel.s.HasVSpace(vspace.root)
    modifies b.slots, b.kernel
    ensures b.Wired()
    ensures r.Ok? ==>
              && r.value == TaskMapping(old(b.slots.start), old(b.slots.start))
              && b.slots.start == old(b.slots.start) + 1
              && old(b.kernel.s).KindAt(frame) == Some(FrameKind)
              && address % b.kernel.platform.PageSize() == 0
              && CanMap(b.kernel.platform, old(SpaceOf(b.kernel.s, vspace)), address)
              && b.kernel.s == Mapped(old(b.kernel.s), r.value.rootSlot, frame, vspace, address, READ_WRITE)
    ensures r == Err(RollbackFailed) <==> DeleteFailed(old(b.Now()), b.Now())
    ensures r.Err? && r.error != RollbackFailed ==>
              b.slots.State() == old(b.slots.State()) && b.kernel.s == old(b.kernel.s)
    ensures r.Err? && r.error !in {InvalidTaskConfiguration, NoFreeSlots} ==>
              StoppedBy(old(b.Now()), b.Now(), r.error) || r.error == RollbackFailed
    ensures r == Err(NoFreeSlots) ==> old(b.slots.start) >= b.slots.end
    ensures r == Err(InvalidTaskConfiguration) <==> address % b.kernel.platform.PageSize() != 0
    ensures CanMap(b.kernel.platform, old(SpaceOf(b.kernel.s, vspace)), address) ==>
              NoCollisions(old(b.Now()), b.Now())
    ensures r == Err(RollbackFailed) ==> RootGrew(old(b.Now()), b.Now()) && OnlyRootChanged(old(b.kernel.s), b.kernel.s)
  {
    ghost var s0 := b.Now();
    var checkpoint := b.Checkpoint();
    var mapped := VSpaces.MapFrame(b, vspace, frame, address, READ_WRITE, 0);
    if mapped.Err? {
      ghost var mid := b.Now();
      ghost var low;
      var undone;
      undone, low := Undo(b, checkpoint, s0, 0, mapped.error);
      UndoState(0, s0, mid, b.Now(), low, undone.Err?);
      if undone.Err? {
        return Err(undone.error);
      }
      return Err(mapped.error);
    }
    var slots := b.CommittedSlots(checkpoint);
    if slots.Err? || slots.value.Len() != 1 {
      assert false;
      return Err(RollbackFailed);
    }
    return Ok(TaskMapping(mapped.value, slots.value.start));
  }

  // A mapping adds one page to one address space, and one root capability.
  lemma MappingLeavesAlone(a: Snapshot, b: Snapshot, vspace: VSpace, frame: nat, address: nat)
    requires a.kernel.Consistent() && a.kernel.HasVSpace(vspace.root) && a.kernel.KindAt(frame).Some?
    requires a.slots.start !in a.kernel.root && b.slots.start == a.slots.start + 1
    requires address !in SpaceOf(a.kernel, vspace).pages
    requires b.kernel == Mapped(a.kernel, a.slots.start, frame, vspace, address, READ_WRITE)
    ensures LeavesAlone({a.kernel.root[vspace.root].id}, a.kernel, b.kernel) && RootGrew(a, b)
  {
  }

  // A failed one changes no object at all, even if its rollback was interrupted.
  lemma LeakLeavesAlone(a: Snapshot, b: Snapshot)
    requires OnlyRootChanged(a.kernel, b.kernel) && RootGrew(a, b)
    ensures LeavesAlone({}, a.kernel, b.kernel)
  {
  }

  // Maps a recovery frame read-write at a prepared address, or leaves no trace.
  method MapRecoveryFrame(b: Bootstrap, task: Task, frame: usize, address: usize, ghost grants: seq<Grant>)
    returns (r: Result<TaskMapping, BootstrapError>)
    requires b.Valid(grants) && b.kernel.s.HasVSpace(task.vspace.root)
    modifies b.slots, b.kernel
    ensures r.Ok? ==>
              && r.value == TaskMapping(old(b.slots.start), old(b.slots.start))
              && b.slots.start == old(b.slots.start) + 1
              && old(b.kernel.s).KindAt(frame) == Some(FrameKind)
              && address % b.kernel.platform.PageSize() == 0
              && CanMap(b.kernel.platform, old(SpaceOf(b.kernel.s, task.vspace)), address)
              && b.kernel.s == Mapped(old(b.kernel.s), r.value.rootSlot, frame, task.vspace, address, READ_WRITE)
    ensures r == Err(RollbackFailed) <==> DeleteFailed(old(b.Now()), b.Now())
    ensures r.Err? && r.error != RollbackFailed ==>
              b.slots.State() == old(b.slots.State()) && b.kernel.s == old(b.kernel.s)
    ensures r == Err(RollbackFailed) ==> OnlyRootChanged(old(b.kernel.s), b.kernel.s)
    ensures RootGrew(old(b.Now()), b.Now())
    ensures LeavesAlone(if r.Ok? then {old(b.kernel.s.root[task.vspace.root].id)} else {}, old(b.kernel.s), b.kernel.s)
    ensures r.Err? && r.error !in {InvalidTaskConfiguration, NoFreeSlots} ==>
              StoppedBy(old(b.Now()), b.Now(), r.error) || r.error == RollbackFailed
    ensures r == Err(NoFreeSlots) ==> old(b.slots.start) >= b.slots.end
    ensures r == Err(InvalidTaskConfiguration) <==> address % b.kernel.platform.PageSize() != 0
    ensures CanMap(b.kernel.platform, old(SpaceOf(b.kernel.s, task.vspace)), address) ==>
              NoCollisions(old(b.Now()), b.Now())
    ensures b.Valid(GrantsAfter(grants, MappingOwner, r.Ok?, old(b.slots.start), b.slots.start))
    ensures Step(LedgerOf(old(b.Now()), grants),
                 if r.Ok? then Granted(MappingOwner) else if r.error == RollbackFailed then Leaked else Unchanged,
                 LedgerOf(b.Now(), GrantsAfter(grants, MappingOwner, r.Ok?, old(b.slots.start), b.slots.start)))
  {
    ghost var s0 := b.Now();
    r := MapOrUndo(b, task.vspace, frame, address);
    if r.Ok? {
      MappingLeavesAlone(s0, b.Now(), task.vspace, frame, address);
    } else {
      LeakLeavesAlone(s0, b.Now());
    }
    ConstructionStep(s0, b.Now(), grants, MappingOwner, r.Err?, r.Err? && r.error != RollbackFailed);
  }
}
