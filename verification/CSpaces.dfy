/** Creation and population of child capability spaces (cspace.rs). */
module CSpaces {
  import opened Machine
  import opened Kernels
  import opened Boot
  import opened SlotTracking
  import Messages

  // A capability to install, named by where the root task holds it.
  datatype DelegatedCapability = DelegatedCapability(source: usize, destination: usize, rights: Rights, badge: usize)

  function AllDelegations(capabilities: seq<DelegatedCapability>, route: Option<DelegatedCapability>)
    : seq<DelegatedCapability>
  {
    capabilities + (if route.Some? then [route.value] else [])
  }

  function Capacity(sizeBits: nat): Option<nat> {
    if sizeBits == 0 || sizeBits >= WORD_SIZE then None else Some(Pow2(sizeBits))
  }

  // Every delegation names a source and its own slot of the CNode, and never the null slot.
  ghost predicate Installable(sizeBits: nat, all: seq<DelegatedCapability>) {
    && 0 < sizeBits < WORD_SIZE
    && (forall i :: 0 <= i < |all| ==> 0 < all[i].destination < Pow2(sizeBits) && all[i].source != 0)
    && (forall i, j :: 0 <= i < j < |all| ==> all[i].destination != all[j].destination)
  }

  method Validate(sizeBits: nat, capabilities: seq<DelegatedCapability>, route: Option<DelegatedCapability>)
    returns (r: Result<(), BootstrapError>)
    ensures r.Ok? <==> Installable(sizeBits, AllDelegations(capabilities, route))
    ensures r.Err? ==> r.error == InvalidTaskConfiguration
  {
    var capacity := Capacity(sizeBits);
    if capacity == None {
      return Err(InvalidTaskConfiguration);
    }
    ghost var all := AllDelegations(capabilities, route);
    for index := 0 to |capabilities|
      invariant Installable(sizeBits, capabilities[..index])
    {
      var capability := capabilities[index];
      assert all[index] == capability;
      if capability.destination == 0 || capability.destination >= capacity.value || capability.source == 0 {
        return Err(InvalidTaskConfiguration);
      }
      if exists prior | prior in capabilities[..index] :: prior.destination == capability.destination {
        var prior :| prior in capabilities[..index] && prior.destination == capability.destination;
        ghost var i :| 0 <= i < index && capabilities[i] == prior;
        assert all[i].destination == all[index].destination;
        return Err(InvalidTaskConfiguration);
      }
      forall i | 0 <= i < index
        ensures capabilities[i].destination != capability.destination
      {
        assert capabilities[i] in capabilities[..index];
      }
    }
    assert capabilities[..|capabilities|] == capabilities;
    if route.Some? {
      var delegation := route.value;
      assert all[|capabilities|] == delegation;
      if delegation.destination == 0 || delegation.destination >= capacity.value || delegation.source == 0 {
        return Err(InvalidTaskConfiguration);
      }
      if exists capability | capability in capabilities :: capability.destination == delegation.destination {
        var capability :| capability in capabilities && capability.destination == delegation.destination;
        ghost var i :| 0 <= i < |capabilities| && capabilities[i] == capability;
        assert all[i].destination == all[|capabilities|].destination;
        return Err(InvalidTaskConfiguration);
      }
      forall i | 0 <= i < |capabilities|
        ensures capabilities[i].destination != delegation.destination
      {
        assert capabilities[i] in capabilities;
      }
    }
    return Ok(());
  }

  ghost function WithDelegation(held: map<nat, Cap>, root: map<nat, Cap>, d: DelegatedCapability): map<nat, Cap>
    requires d.source in root && root[d.source].ObjectCap?
  {
    held[d.destination := Derived(root[d.source], d.rights, d.badge)]
  }

  ghost predicate IsDestination(all: seq<DelegatedCapability>, k: nat) {
    exists i :: 0 <= i < |all| && all[i].destination == k
  }

  // The CNode holds, at each delegated slot, a copy of the source with no more rights than
  // delegated.
  ghost predicate HoldsDelegations(held: map<nat, Cap>, root: map<nat, Cap>, all: seq<DelegatedCapability>) {
    forall i :: 0 <= i < |all| ==>
      && all[i].source in root && root[all[i].source].ObjectCap?
      && all[i].destination in held
      && held[all[i].destination] == Derived(root[all[i].source], all[i].rights, all[i].badge)
  }

  // And it holds nothing anywhere else.
  ghost predicate HoldsExactly(held: map<nat, Cap>, root: map<nat, Cap>, all: seq<DelegatedCapability>) {
    HoldsDelegations(held, root, all) && forall k :: k in held ==> IsDestination(all, k)
  }

  // The tracker calls exactly the delegated slots occupied, and nothing is reserved.
  ghost predicate TracksExactly(tracker: Tracker, all: seq<DelegatedCapability>) {
    && tracker.Valid()
    && (forall k :: 0 <= k < MAX_SLOTS ==>
          tracker.uses[k] == if IsDestination(all, k) then Occupied else Free)
  }

  lemma OneMoreDelegation(held: map<nat, Cap>, root: map<nat, Cap>, tracker: Tracker, all: seq<DelegatedCapability>,
                          n: nat)
    requires n < |all| && forall i, j :: 0 <= i < j < |all| ==> all[i].destination != all[j].destination
    requires HoldsExactly(held, root, all[..n]) && TracksExactly(tracker, all[..n])
    ensures all[n].destination !in held
    ensures all[n].destination < MAX_SLOTS ==> tracker.uses[all[n].destination] == Free
    ensures all[n].source in root && root[all[n].source].ObjectCap? && 0 < all[n].destination < MAX_SLOTS ==>
              && HoldsExactly(WithDelegation(held, root, all[n]), root, all[..n + 1])
              && TracksExactly(tracker.(uses := tracker.uses[all[n].destination := Occupied]), all[..n + 1])
  {
    forall k
      ensures IsDestination(all[..n + 1], k) <==> IsDestination(all[..n], k) || k == all[n].destination
    {
      if IsDestination(all[..n], k) {
        var i :| 0 <= i < n && all[..n][i].destination == k;
        assert all[..n + 1][i].destination == k;
      }
      assert all[..n + 1][n] == all[n];
      if IsDestination(all[..n + 1], k) && k != all[n].destination {
        var i :| 0 <= i < n + 1 && all[..n + 1][i].destination == k;
        assert all[..n][i].destination == k;
      }
    }
    assert !IsDestination(all[..n], all[n].destination);
    if all[n].source in root && root[all[n].source].ObjectCap? && 0 < all[n].destination < MAX_SLOTS {
      forall i | 0 <= i < n
        ensures all[..n + 1][i] == all[..n][i] && all[..n][i].destination != all[n].destination
      {
      }
    }
  }

  class CSpace {
    const root: usize
    const sizeBits: nat
    const slots: SlotTracker

    constructor (root: usize, sizeBits: nat, slots: SlotTracker)
      ensures this.root == root && this.sizeBits == sizeBits && this.slots == slots
    {
      this.root, this.sizeBits, this.slots := root, sizeBits, slots;
    }

    ghost predicate Valid()
      reads this, slots, slots.states
    {
      slots.Valid() && 0 < sizeBits < WORD_SIZE && slots.capacity == Pow2(sizeBits)
    }

    // Mints one delegation into an empty slot of the CNode, then records it.
    method Install(b: Bootstrap, capability: DelegatedCapability, ghost base: nat)
      returns (r: Result<(), BootstrapError>)
      requires b.Wired() && Valid() && base <= b.kernel.s.nextId
      requires b.kernel.s.HasCNode(root) && b.kernel.s.root[root].kind == CNodeKind(sizeBits)
      requires base <= b.kernel.s.root[root].id
      requires 0 < capability.destination < Pow2(sizeBits)
      requires capability.destination !in b.kernel.s.cnodes[b.kernel.s.root[root].id]
      requires slots.Contents().uses[capability.destination] == Free
      modifies b.kernel, slots.states
      ensures b.Wired() && Valid() && Grew(base, old(b.Now()), b.Now()) && NoCollisions(old(b.Now()), b.Now())
      ensures r.Ok? ==>
                var was := old(b.kernel.s);
                var id := was.root[root].id;
                && was.KindAt(capability.source).Some?
                && b.kernel.s == was.(cnodes := was.cnodes[id := WithDelegation(was.cnodes[id], was.root, capability)])
                && slots.Contents() == old(slots.Contents()).(uses :=
                     old(slots.Contents()).uses[capability.destination := Occupied])
      ensures r.Err? ==> r == Err(CSpaceCreationFailed) && b.Explains(|old(b.kernel.log)|, r.error)
                         && b.kernel.s == old(b.kernel.s) && slots.Contents() == old(slots.Contents())
    {
      var outcome := b.kernel.Invoke(Mint(root, capability.destination, capability.source,
                                          capability.rights, capability.badge));
      if outcome != Done {
        return Err(CSpaceCreationFailed);
      }
      var marked := slots.MarkOccupied(capability.destination);
      if marked.Err? {
        assert false;
        return Err(InvalidTaskConfiguration);
      }
      return Ok(());
    }

    // The state between two installations.
    ghost predicate Populated(s: KernelState, all: seq<DelegatedCapability>)
      reads this, slots, slots.states
    {
      && s.HasCNode(root)
      && s.root[root].kind == CNodeKind(sizeBits)
      && HoldsExactly(s.cnodes[s.root[root].id], s.root, all)
      && TracksExactly(slots.Contents(), all)
    }

    // Later construction adds root slots and leaves this CNode alone.
    lemma StillPopulated(a: KernelState, b: KernelState, all: seq<DelegatedCapability>)
      requires Populated(a, all)
      requires forall k :: k in a.root ==> k in b.root && b.root[k] == a.root[k]
      requires b.cnodes == a.cnodes
      ensures Populated(b, all)
    {
    }

    // A CSpace that was just populated is a safe start for receiving capabilities.
    lemma PopulatedIsSafe(s: KernelState, all: seq<DelegatedCapability>)
      requires Valid() && Populated(s, all) && Installable(sizeBits, all)
      ensures ChildSpace(slots.Contents(), s.cnodes[s.root[root].id].Keys, None).Safe()
    {
      var held := s.cnodes[s.root[root].id];
      forall k | k in held
        ensures slots.Contents().Usable(k) && slots.Contents().uses[k] == Occupied
      {
        assert IsDestination(all, k);
      }
    }

    // Installs the delegation after the first `n`.
    method InstallNext(b: Bootstrap, ghost all: seq<DelegatedCapability>, n: nat, capability: DelegatedCapability,
                       ghost base: nat)
      returns (r: Result<(), BootstrapError>)
      requires b.Wired() && Valid() && slots.capacity <= MAX_SLOTS && base <= b.kernel.s.nextId
      requires Installable(sizeBits, all) && n < |all| && capability == all[n]
      requires Populated(b.kernel.s, all[..n]) && base <= b.kernel.s.root[root].id
      modifies b.kernel, slots.states
      ensures b.Wired() && Valid() && Grew(base, old(b.Now()), b.Now()) && NoCollisions(old(b.Now()), b.Now())
      ensures b.kernel.s.root == old(b.kernel.s.root) && b.kernel.s.nextId == old(b.kernel.s.nextId)
      ensures b.kernel.s.vspaces == old(b.kernel.s.vspaces) && b.kernel.s.threads == old(b.kernel.s.threads)
      ensures b.kernel.s.root[root].id in b.kernel.s.cnodes
      ensures b.kernel.s.cnodes
           == old(b.kernel.s.cnodes)[b.kernel.s.root[root].id := b.kernel.s.cnodes[b.kernel.s.root[root].id]]
      ensures r.Ok? ==> Populated(b.kernel.s, all[..n + 1])
      ensures r.Err? ==> r == Err(CSpaceCreationFailed) && b.Explains(|old(b.kernel.log)|, r.error)
    {
      OneMoreDelegation(b.kernel.s.cnodes[b.kernel.s.root[root].id], b.kernel.s.root, slots.Contents(), all, n);
      r := Install(b, capability, base);
    }

    // Installs the delegations other than the fault route, in order.
    method InstallEach(b: Bootstrap, capabilities: seq<DelegatedCapability>, ghost all: seq<DelegatedCapability>,
                       ghost base: nat)
      returns (r: Result<(), BootstrapError>)
      requires b.Wired() && Valid() && slots.capacity <= MAX_SLOTS && base <= b.kernel.s.nextId
      requires Installable(sizeBits, all) && capabilities <= all
      requires Populated(b.kernel.s, []) && base <= b.kernel.s.root[root].id
      modifies b.kernel, slots.states
      ensures b.Wired() && Valid() && Grew(base, old(b.Now()), b.Now()) && NoCollisions(old(b.Now()), b.Now())
      ensures b.kernel.s.root == old(b.kernel.s.root) && b.kernel.s.nextId == old(b.kernel.s.nextId)
      ensures b.kernel.s.vspaces == old(b.kernel.s.vspaces) && b.kernel.s.threads == old(b.kernel.s.threads)
      ensures r.Ok? ==> Populated(b.kernel.s, all[..|capabilities|])
      ensures r.Err? ==> r == Err(CSpaceCreationFailed) && b.Explains(|old(b.kernel.log)|, r.error)
    {
      ghost var before := b.Now();
      assert all[..0] == [];
      NothingGrew(base, before, before);
      var n := 0;
      while n < |capabilities|
        invariant 0 <= n <= |capabilities|
        invariant b.Wired() && Valid() && Grew(base, before, b.Now()) && NoCollisions(before, b.Now())
        invariant Populated(b.kernel.s, all[..n])
        invariant b.kernel.s.root == before.kernel.root && b.kernel.s.nextId == before.kernel.nextId
        invariant b.kernel.s.vspaces == before.kernel.vspaces && b.kernel.s.threads == before.kernel.threads
      {
        ghost var between := b.Now();
        r := InstallNext(b, all, n, capabilities[n], base);
        GrewThenGrew(base, before, between, b.Now());
        if r.Err? {
          return;
        }
        n := n + 1;
      }
      return Ok(());
    }

    // Installs every delegation, the fault route last.
    method InstallAll(b: Bootstrap, capabilities: seq<DelegatedCapability>, route: Option<DelegatedCapability>,
                      ghost base: nat)
      returns (r: Result<(), BootstrapError>)
      requires b.Wired() && Valid() && slots.capacity <= MAX_SLOTS && base <= b.kernel.s.nextId
      requires Installable(sizeBits, AllDelegations(capabilities, route))
      requires Populated(b.kernel.s, []) && base <= b.kernel.s.root[root].id
      modifies b.kernel, slots.states
      ensures b.Wired() && Valid() && Grew(base, old(b.Now()), b.Now()) && NoCollisions(old(b.Now()), b.Now())
      ensures b.kernel.s.root == old(b.kernel.s.root) && b.kernel.s.nextId == old(b.kernel.s.nextId)
      ensures b.kernel.s.vspaces == old(b.kernel.s.vspaces) && b.kernel.s.threads == old(b.kernel.s.threads)
      ensures r.Ok? ==> Populated(b.kernel.s, AllDelegations(capabilities, route))
      ensures r.Err? ==> r == Err(CSpaceCreationFailed) && b.Explains(|old(b.kernel.log)|, r.error)
    {
      ghost var before, all := b.Now(), AllDelegations(capabilities, route);
      r := InstallEach(b, capabilities, all, base);
      if route.None? {
        assert all[..|capabilities|] == all;
      } else if r.Ok? {
        ghost var between := b.Now();
        assert all[..|capabilities| + 1] == all;
        r := InstallNext(b, all, |capabilities|, route.value, base);
        GrewThenGrew(base, before, between, b.Now());
      }
    }

    // Tracks and populates the new, empty CNode in `slot`.
    static method Populate(b: Bootstrap, slot: usize, sizeBits: nat, capabilities: seq<DelegatedCapability>,
                           route: Option<DelegatedCapability>, ghost base: nat)
      returns (r: Result<CSpace, BootstrapError>)
      requires b.Wired() && base <= b.kernel.s.nextId
      requires Installable(sizeBits, AllDelegations(capabilities, route))
      requires b.kernel.s.HasCNode(slot) && b.kernel.s.root[slot].kind == CNodeKind(sizeBits)
      requires base <= b.kernel.s.root[slot].id && b.kernel.s.cnodes[b.kernel.s.root[slot].id] == map[]
      modifies b.kernel
      ensures b.Wired() && Grew(base, old(b.Now()), b.Now()) && NoCollisions(old(b.Now()), b.Now())
      ensures b.kernel.s.root == old(b.kernel.s.root) && b.kernel.s.nextId == old(b.kernel.s.nextId)
      ensures b.kernel.s.vspaces == old(b.kernel.s.vspaces) && b.kernel.s.threads == old(b.kernel.s.threads)
      ensures r.Ok? ==>
                && fresh(r.value) && fresh(r.value.slots) && fresh(r.value.slots.states)
                && r.value.Valid() && r.value.root == slot && r.value.sizeBits == sizeBits
                && r.value.Populated(b.kernel.s, AllDelegations(capabilities, route))
      ensures r.Err? && r.error != InvalidTaskConfiguration ==> b.Explains(|old(b.kernel.log)|, r.error)
      ensures r.Err? ==> r.error in {InvalidTaskConfiguration, CSpaceCreationFailed}
      ensures r == Err(InvalidTaskConfiguration) ==> Pow2(sizeBits) > MAX_SLOTS
    {
      var tracked := SlotTracker.TryNew(Pow2(sizeBits));
      if tracked.Err? {
        NothingGrew(base, old(b.Now()), b.Now());
        return Err(InvalidTaskConfiguration);
      }
      var cspace := new CSpace(slot, sizeBits, tracked.value);
      var installed := cspace.InstallAll(b, capabilities, route, base);
      if installed.Err? {
        return Err(installed.error);
      }
      return Ok(cspace);
    }

    // Makes a CNode and populates it with the delegations and nothing else.
    static method Create(b: Bootstrap, sizeBits: nat, capabilities: seq<DelegatedCapability>,
                         route: Option<DelegatedCapability>, ghost base: nat)
      returns (r: Result<CSpace, BootstrapError>)
      requires b.Wired() && base <= b.kernel.s.nextId
      modifies b.slots, b.kernel
      ensures b.Wired() && Grew(base, old(b.Now()), b.Now()) && NoCollisions(old(b.Now()), b.Now())
      ensures r.Ok? ==>
                && fresh(r.value) && fresh(r.value.slots) && fresh(r.value.slots.states)
                && r.value.Valid() && r.value.sizeBits == sizeBits
                && r.value.root == old(b.slots.start) && b.slots.start == old(b.slots.start) + 1
                && Installable(sizeBits, AllDelegations(capabilities, route))
                && r.value.Populated(b.kernel.s, AllDelegations(capabilities, route))
                && b.kernel.s.root[r.value.root].id == old(b.kernel.s.nextId)
                && b.kernel.s.nextId == old(b.kernel.s.nextId) + 1
                && b.kernel.s.vspaces == old(b.kernel.s.vspaces) && b.kernel.s.threads == old(b.kernel.s.threads)
      ensures r.Err? ==> b.ExplainsObject(|old(b.kernel.log)|, CNodeKind(sizeBits), r.error)
      ensures r == Err(NoFreeSlots) ==> old(b.slots.start) + 1 > b.slots.end
      ensures r == Err(InvalidTaskConfiguration) ==>
                !Installable(sizeBits, AllDelegations(capabilities, route)) || Pow2(sizeBits) > MAX_SLOTS
      ensures !Installable(sizeBits, AllDelegations(capabilities, route)) ==>
                r == Err(InvalidTaskConfiguration) && b.Now() == old(b.Now())
    {
      var checked := Validate(sizeBits, capabilities, route);
      if checked.Err? {
        return Err(checked.error);
      }
      ghost var before := b.Now();
      var made := b.AllocateObject(CNodeKind(sizeBits), base);
      if made.Err? {
        return Err(made.error);
      }
      ghost var between := b.Now();
      r := Populate(b, made.value, sizeBits, capabilities, route, base);
      GrewThenGrew(base, before, between, b.Now());
    }

    // Reserves an empty slot of this CSpace until the receive completes.
    method ReceiveSlot(index: nat) returns (r: Result<SlotTracking.ReceiveSlot, Messages.IpcError>)
      requires Valid()
      modifies slots.states
      ensures Valid()
      ensures forall filled: set<nat> ::
                var was := ChildSpace(old(slots.Contents()), filled, None);
                var held := if r.Ok? then Some(r.value.reservation.slot) else None;
                ChildStep(was, Offer(index))
                  == (ChildSpace(slots.Contents(), filled, held), if r.Ok? then Accepted else SlotRejected)
      ensures r.Ok? ==> r.value == SlotTracking.ReceiveSlot(root, sizeBits, SlotReservation(slots, index))
                        && r.value.Reserves()
      ensures r.Ok? <==> 0 < index < Pow2(sizeBits) && index < MAX_SLOTS && old(slots.Contents()).uses[index] == Free
      ensures slots.Contents() == if r.Ok? then
                                    old(slots.Contents()).(uses := old(slots.Contents()).uses[index := Reserved])
                                  else
                                    old(slots.Contents())
      ensures r.Err? ==> r.error == Messages.InvalidReceiveSlot
    {
      var reserved := slots.Reserve(index);
      if reserved.Err? {
        return Err(Messages.InvalidReceiveSlot);
      }
      return Ok(SlotTracking.ReceiveSlot(root, sizeBits, reserved.value));
    }
  }
}
