/**
 The seL4 kernel as the substrate's environment: which capability sits in which slot, what each
 object holds, and one entry point whose outcome is the kernel's own choice. A call that is not
 `Done` changes nothing; that is all the substrate relies on when it retries or rolls back.
 */
module Kernels {
  import opened Machine

  datatype Rights = Rights(read: bool, write: bool, grant: bool) {
    function And(other: Rights): Rights {
      Rights(read && other.read, write && other.write, grant && other.grant)
    }
  }

  const READ_ONLY := Rights(true, false, false)
  const READ_WRITE := Rights(true, true, false)
  const ALL_RIGHTS := Rights(true, true, true)

  datatype Kind =
    | CNodeKind(bits: nat)
    | VSpaceKind
    | TableKind(level: nat)
    | FrameKind
    | TcbKind
    | EndpointKind
    | NotificationKind

  // The architecture: base pages, and the bits of address covered by one table at each level of
  // a translation tree. Level 0 is the root; the last level holds the page entries.
  datatype Platform = Platform(
    pageBits: nat, spanBits: seq<nat>, slotBits: nat, vspaceBits: nat, tableBits: nat, tcbBits: nat,
    endpointBits: nat, notificationBits: nat)
  {
    // The memory an object takes, in bits of address.
    function ObjectBits(kind: Kind): nat {
      match kind
      case CNodeKind(bits) => bits + slotBits
      case VSpaceKind => vspaceBits
      case TableKind(_) => tableBits
      case FrameKind => pageBits
      case TcbKind => tcbBits
      case EndpointKind => endpointBits
      case NotificationKind => notificationBits
    }

    // The most memory that any object of fixed size takes.
    function LargestFixedBits(): nat {
      Max(Max(Max(vspaceBits, tableBits), Max(pageBits, tcbBits)), Max(endpointBits, notificationBits))
    }

    function PageSize(): (p: nat)
      ensures p > 0
    {
      Pow2(pageBits)
    }

    function Levels(): nat {
      |spanBits|
    }

    // The index of the table that covers `address` at `level`.
    function Index(level: nat, address: nat): nat
      requires level < |spanBits|
    {
      Quotient(address, Pow2(spanBits[level]))
    }
  }

  // A capability: an object with the holder's rights, or a saved right to answer one caller.
  datatype Cap =
    | ObjectCap(kind: Kind, id: nat, rights: Rights, badge: usize, mapped: bool)
    | ReplyCap(right: nat)

  datatype Page = Page(frame: nat, rights: Rights)

  ghost predicate Includes<V>(all: map<nat, V>, some: map<nat, V>) {
    forall k :: k in some ==> k in all && all[k] == some[k]
  }

  // A translation tree: at each level the indices that have a table, and the mapped pages.
  datatype AddressSpace = AddressSpace(hasAsid: bool, tables: seq<set<nat>>, pages: map<nat, Page>) {
    predicate HasTable(p: Platform, level: nat, address: nat) {
      level < |tables| && level < p.Levels() && p.Index(level, address) in tables[level]
    }

    // A table at every level below the root, down to the entry for a page.
    predicate HasPath(p: Platform, address: nat) {
      forall level :: 0 < level < p.Levels() ==> HasTable(p, level, address)
    }

    // The same tree with perhaps more pages mapped.
    ghost predicate Extends(was: AddressSpace) {
      hasAsid == was.hasAsid && tables == was.tables && Includes(pages, was.pages)
    }
  }

  datatype TcbConfig = TcbConfig(
    faultEndpoint: usize, cspace: usize, guardBits: nat, vspace: usize, ipcBuffer: usize, ipcMapping: usize)

  datatype Registers = Registers(pc: usize, sp: usize, arguments: seq<usize>)

  datatype Thread = Thread(config: Option<TcbConfig>, registers: Option<Registers>)

  datatype KernelState = KernelState(
    root: map<nat, Cap>,                  // the root CNode
    cnodes: map<nat, map<nat, Cap>>,      // every other CNode, by object
    vspaces: map<nat, AddressSpace>,
    threads: map<nat, Thread>,
    nextId: nat,                          // objects made so far
    caller: Option<nat>,                  // the implicit right to answer
    nextRight: nat)                       // rights to answer made so far
  {
    // Objects and rights are numbered in the order they were made.
    ghost predicate Consistent() {
      && (forall i :: i in cnodes ==> i < nextId)
      && (forall i :: i in vspaces ==> i < nextId)
      && (forall i :: i in threads ==> i < nextId)
      && (forall k :: k in root && root[k].ObjectCap? ==> root[k].id < nextId)
    }

    function KindAt(slot: nat): Option<Kind> {
      if slot in root && root[slot].ObjectCap? then Some(root[slot].kind) else None
    }

    predicate HasCNode(slot: nat) {
      KindAt(slot).Some? && KindAt(slot).value.CNodeKind? && root[slot].id in cnodes
    }

    predicate HasVSpace(slot: nat) {
      KindAt(slot) == Some(VSpaceKind) && root[slot].id in vspaces
    }

    predicate HasThread(slot: nat) {
      KindAt(slot) == Some(TcbKind) && root[slot].id in threads
    }
  }

  datatype Call =
    | Retype(untyped: nat, kind: Kind, slot: nat)
    | CopyCap(source: nat, rights: Rights, slot: nat)
    | Mint(cnode: nat, index: nat, source: nat, rights: Rights, badge: usize)
    | AssignAsid(vspace: nat)
    | MapTable(table: nat, level: nat, vspace: nat, address: nat)
    | MapFrame(frame: nat, vspace: nat, address: nat, rights: Rights)
    | Configure(tcb: nat, config: TcbConfig)
    | WriteRegisters(tcb: nat, registers: Registers)
    | Delete(slot: nat)
    | SaveCaller(slot: nat)

  // Why the kernel turns a call down. All but the last two say that the caller asked for
  // something that is already taken, out of range or not yet prepared.
  datatype Reason =
    | SlotTaken | OutOfRange | EntryTaken | NoParentTable | NoTable | Misaligned | NoAsid | AlreadyMapped
    | MissingSource | WrongCap

  datatype Outcome = Done | NotEnoughMemory | Failed | Refused(reason: Reason)

  datatype Event = Event(call: Call, outcome: Outcome)

  function Refusal(p: Platform, s: KernelState, call: Call): Option<Reason> {
    match call
    case Retype(_, _, slot) =>
      if slot in s.root then Some(SlotTaken) else None
    case CopyCap(source, _, slot) =>
      if slot in s.root then Some(SlotTaken)
      else if s.KindAt(source).None? then Some(MissingSource) else None
    case Mint(cnode, index, source, _, _) =>
      if !s.HasCNode(cnode) then Some(WrongCap)
      else if index >= Pow2(s.root[cnode].kind.bits) then Some(OutOfRange)
      else if index in s.cnodes[s.root[cnode].id] then Some(SlotTaken)
      else if s.KindAt(source).None? then Some(MissingSource) else None
    case AssignAsid(vspace) =>
      if !s.HasVSpace(vspace) then Some(WrongCap) else None
    case MapTable(table, level, vspace, address) =>
      if s.KindAt(table) != Some(TableKind(level)) || !s.HasVSpace(vspace) || !(0 < level < p.Levels())
         || |s.vspaces[s.root[vspace].id].tables| != p.Levels()
      then Some(WrongCap)
      else
        var space := s.vspaces[s.root[vspace].id];
        if s.root[table].mapped then Some(AlreadyMapped)
        else if !space.hasAsid then Some(NoAsid)
        else if level > 1 && !space.HasTable(p, level - 1, address) then Some(NoParentTable)
        else if space.HasTable(p, level, address) then Some(EntryTaken) else None
    case MapFrame(frame, vspace, address, _) =>
      if s.KindAt(frame) != Some(FrameKind) || !s.HasVSpace(vspace) then Some(WrongCap)
      else
        var space := s.vspaces[s.root[vspace].id];
        if s.root[frame].mapped then Some(AlreadyMapped)
        else if !space.hasAsid then Some(NoAsid)
        else if address % p.PageSize() != 0 then Some(Misaligned)
        else if !space.HasPath(p, address) then Some(NoTable)
        else if address in space.pages then Some(EntryTaken) else None
    case Configure(tcb, _) =>
      if !s.HasThread(tcb) then Some(WrongCap) else None
    case WriteRegisters(tcb, _) =>
      if !s.HasThread(tcb) then Some(WrongCap) else None
    case Delete(_) => None
    case SaveCaller(slot) =>
      if slot in s.root then Some(SlotTaken) else None
  }

  // The same object in another slot: never more rights, never a mapping.
  function Derived(source: Cap, rights: Rights, badge: usize): Cap
    requires source.ObjectCap?
  {
    source.(rights := source.rights.And(rights), badge := if badge == 0 then source.badge else badge, mapped := false)
  }

  // What a call that is done leaves behind.
  function Effect(p: Platform, s: KernelState, call: Call): KernelState
    requires Refusal(p, s, call) == None
  {
    match call
    case Retype(_, kind, slot) =>
      var id := s.nextId;
      s.(root := s.root[slot := ObjectCap(kind, id, ALL_RIGHTS, 0, false)],
         cnodes := if kind.CNodeKind? then s.cnodes[id := map[]] else s.cnodes,
         vspaces := if kind.VSpaceKind?
                    then s.vspaces[id := AddressSpace(false, seq(p.Levels(), _ => {}), map[])] else s.vspaces,
         threads := if kind.TcbKind? then s.threads[id := Thread(None, None)] else s.threads,
         nextId := id + 1)
    case CopyCap(source, rights, slot) =>
      s.(root := s.root[slot := Derived(s.root[source], rights, 0)])
    case Mint(cnode, index, source, rights, badge) =>
      var id := s.root[cnode].id;
      var held: map<nat, Cap> := s.cnodes[id];
      s.(cnodes := s.cnodes[id := held[index := Derived(s.root[source], rights, badge)]])
    case AssignAsid(vspace) =>
      var id := s.root[vspace].id;
      s.(vspaces := s.vspaces[id := s.vspaces[id].(hasAsid := true)])
    case MapTable(table, level, vspace, address) =>
      var id := s.root[vspace].id;
      var space := s.vspaces[id];
      var tables := space.tables[level := space.tables[level] + {p.Index(level, address)}];
      s.(root := s.root[table := s.root[table].(mapped := true)],
         vspaces := s.vspaces[id := space.(tables := tables)])
    case MapFrame(frame, vspace, address, rights) =>
      var id := s.root[vspace].id;
      var space := s.vspaces[id];
      var pages: map<nat, Page> := space.pages;
      var page := Page(s.root[frame].id, s.root[frame].rights.And(rights));
      s.(root := s.root[frame := s.root[frame].(mapped := true)],
         vspaces := s.vspaces[id := space.(pages := pages[address := page])])
    case Configure(tcb, config) =>
      var id := s.root[tcb].id;
      s.(threads := s.threads[id := s.threads[id].(config := Some(config))])
    case WriteRegisters(tcb, registers) =>
      var id := s.root[tcb].id;
      s.(threads := s.threads[id := s.threads[id].(registers := Some(registers))])
    case Delete(slot) =>
      s.(root := s.root - {slot})
    case SaveCaller(slot) =>
      if s.caller == None then s
      else s.(root := s.root[slot := ReplyCap(s.caller.value)], caller := None)
  }

  // Objects numbered below `base` hold what they held, except perhaps those in `touched`.
  ghost predicate ObjectsKept(base: nat, touched: set<nat>, a: KernelState, b: KernelState) {
    && (forall i :: i < base && i !in touched ==>
          (i in a.cnodes <==> i in b.cnodes) && (i in a.cnodes ==> a.cnodes[i] == b.cnodes[i]))
    && (forall i :: i < base && i !in touched ==>
          (i in a.vspaces <==> i in b.vspaces) && (i in a.vspaces ==> a.vspaces[i] == b.vspaces[i]))
    && (forall i :: i < base && i !in touched ==>
          (i in a.threads <==> i in b.threads) && (i in a.threads ==> a.threads[i] == b.threads[i]))
  }

  // Every object still holds all that it held: a CNode may have gained capabilities, an address
  // space may have gained pages, and nothing else changed inside any of them.
  ghost predicate OnlyAdds(a: KernelState, b: KernelState) {
    && (forall i :: i in a.cnodes ==> i in b.cnodes && Includes(b.cnodes[i], a.cnodes[i]))
    && (forall i :: i in a.vspaces ==> i in b.vspaces && b.vspaces[i].Extends(a.vspaces[i]))
    && (forall i :: i in a.threads ==> i in b.threads && b.threads[i] == a.threads[i])
  }

  // From `a` to `b` nothing that was there was lost, and nothing was added except inside the
  // objects `touched`: every capability to an object is where it was, and every other object
  // holds exactly what it held.
  ghost predicate LeavesAlone(touched: set<nat>, a: KernelState, b: KernelState) {
    && a.nextId <= b.nextId
    && (forall k :: k in a.root && a.root[k].ObjectCap? ==> k in b.root && b.root[k] == a.root[k])
    && ObjectsKept(a.nextId, touched, a, b)
    && OnlyAdds(a, b)
  }

  lemma EffectKeepsConsistent(p: Platform, s: KernelState, call: Call)
    requires s.Consistent() && Refusal(p, s, call) == None
    ensures Effect(p, s, call).Consistent() && s.nextId <= Effect(p, s, call).nextId
  {
  }

  class Kernel {
    const platform: Platform
    var s: KernelState
    ghost var log: seq<Event>

    constructor (platform: Platform, s: KernelState)
      ensures this.platform == platform && this.s == s && log == []
    {
      this.platform, this.s, log := platform, s, [];
    }

    // One kernel call. It may fail for reasons of the kernel's own, whatever the call.
    method Invoke(call: Call) returns (outcome: Outcome)
      modifies this
      ensures log == old(log) + [Event(call, outcome)]
      ensures outcome == Done ==> Refusal(platform, old(s), call) == None && s == Effect(platform, old(s), call)
      ensures outcome != Done ==> s == old(s)
      ensures outcome.Refused? <==> Refusal(platform, old(s), call).Some?
      ensures outcome.Refused? ==> Refusal(platform, old(s), call) == Some(outcome.reason)
      ensures old(s.Consistent()) ==> s.Consistent() && old(s.nextId) <= s.nextId
    {
      var refusal := Refusal(platform, s, call);
      if refusal.Some? {
        outcome := Refused(refusal.value);
      } else if * {
        outcome := Done;
        if s.Consistent() {
          EffectKeepsConsistent(platform, s, call);
        }
        s := Effect(platform, s, call);
      } else if * {
        outcome := NotEnoughMemory;
      } else {
        outcome := Failed;
      }
      log := log + [Event(call, outcome)];
    }
  }
}
