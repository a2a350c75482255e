/** Address-space construction: translation tables and page mappings (vspace.rs). */
module VSpaces {
  import opened Machine
  import opened Kernels
  import opened Boot

  // The distinct tables that some addresses need at one level.
  function TablesAt(p: Platform, addresses: seq<usize>, level: nat): set<nat>
    requires level < p.Levels()
  {
    set a | a in addresses :: p.Index(level, a)
  }

  // All tables the addresses need at the levels before `level`, and at `level` itself those
  // that the first `done` addresses need.
  function TablesUpTo(p: Platform, addresses: seq<usize>, level: nat, done: nat): seq<set<nat>>
    requires done <= |addresses|
  {
    seq(p.Levels(), l requires 0 <= l < p.Levels() =>
      if l == 0 || l > level then {}
      else TablesAt(p, if l < level then addresses else addresses[..done], l))
  }

  // Exactly the tables that the addresses need, at every level.
  function TablesFor(p: Platform, addresses: seq<usize>): seq<set<nat>> {
    TablesUpTo(p, addresses, p.Levels(), 0)
  }

  function Total(tables: seq<set<nat>>): nat {
    if tables == [] then 0 else Total(tables[..|tables| - 1]) + |tables[|tables| - 1]|
  }

  // Where the aligned span of one table begins that an address lies in.
  function SpanStart(p: Platform, level: nat, address: nat): int
    requires level < p.Levels()
  {
    address - address % Pow2(p.spanBits[level])
  }

  // The distinct spans that some addresses lie in.
  function SpansAt(p: Platform, addresses: seq<usize>, level: nat): set<int>
    requires level < p.Levels()
  {
    set a | a in addresses :: SpanStart(p, level, a)
  }

  // All of them, counted level by level below the root.
  function SpanCount(p: Platform, addresses: seq<usize>, levels: nat): nat
    requires levels <= p.Levels()
  {
    if levels <= 1 then 0
    else SpanCount(p, addresses, levels - 1) + |SpansAt(p, addresses, levels - 1)|
  }

  // The index of an address names the span that it lies in.
  lemma IndexCovers(p: Platform, level: nat, address: nat)
    requires level < p.Levels()
    ensures var span, index := Pow2(p.spanBits[level]), p.Index(level, address);
            index * span <= address < (index + 1) * span && SpanStart(p, level, address) == index * span
  {
    var span := Pow2(p.spanBits[level]);
    assert address == (address / span) * span + address % span;
    assert (address / span + 1) * span == (address / span) * span + span;
  }

  lemma OneMultipleBelow(span: nat, m: nat, n: nat, address: nat)
    requires m * span <= address < (m + 1) * span && n * span <= address < (n + 1) * span
    ensures m == n
  {
    if m < n {
      ProductGrows(span, m + 1, n);
    } else if n < m {
      ProductGrows(span, n + 1, m);
    }
  }

  // Two addresses share a table exactly if they lie in the same aligned span.
  lemma SharedTableIffSameSpan(p: Platform, level: nat, a: nat, b: nat)
    requires level < p.Levels()
    ensures p.Index(level, a) == p.Index(level, b) <==>
              exists k: nat :: k * Pow2(p.spanBits[level]) <= a < (k + 1) * Pow2(p.spanBits[level])
                               && k * Pow2(p.spanBits[level]) <= b < (k + 1) * Pow2(p.spanBits[level])
  {
    var span := Pow2(p.spanBits[level]);
    IndexCovers(p, level, a);
    IndexCovers(p, level, b);
    if k: nat :| k * span <= a < (k + 1) * span && k * span <= b < (k + 1) * span {
      OneMultipleBelow(span, k, p.Index(level, a), a);
      OneMultipleBelow(span, k, p.Index(level, b), b);
    }
  }

  function Scaled(s: set<nat>, k: nat): set<int> {
    set x | x in s :: x * k
  }

  lemma {:induction false} ScaledSize(s: set<nat>, k: nat)
    requires k > 0
    ensures |Scaled(s, k)| == |s|
  {
    if s == {} {
      assert Scaled(s, k) == {};
    } else {
      var e :| e in s;
      ScaledSize(s - {e}, k);
      forall x | x in s - {e}
        ensures x * k != e * k
      {
        if x < e {
          ProductGrows(k, x, e);
        } else {
          ProductGrows(k, e, x);
        }
      }
      assert e * k !in Scaled(s - {e}, k);
      assert s == (s - {e}) + {e};
      assert Scaled(s, k) == Scaled(s - {e}, k) + {e * k};
    }
  }

  // So there are as many tables as spans.
  lemma TablesAreSpans(p: Platform, addresses: seq<usize>, level: nat)
    requires level < p.Levels()
    ensures |TablesAt(p, addresses, level)| == |SpansAt(p, addresses, level)|
  {
    var span := Pow2(p.spanBits[level]);
    var tables, spans := TablesAt(p, addresses, level), SpansAt(p, addresses, level);
    forall y
      ensures y in Scaled(tables, span) <==> y in spans
    {
      if y in spans {
        var a :| a in addresses && y == SpanStart(p, level, a);
        IndexCovers(p, level, a);
        assert p.Index(level, a) in tables;
      }
      if y in Scaled(tables, span) {
        var x :| x in tables && y == x * span;
        var a :| a in addresses && x == p.Index(level, a);
        IndexCovers(p, level, a);
        assert SpanStart(p, level, a) in spans;
      }
    }
    assert Scaled(tables, span) == spans;
    ScaledSize(tables, span);
  }

  // The tables made are one for each span that an address lies in, at every level.
  lemma {:induction false} TotalIsSpanCount(p: Platform, addresses: seq<usize>, levels: nat)
    requires levels <= p.Levels()
    ensures Total(TablesFor(p, addresses)[..levels]) == SpanCount(p, addresses, levels)
  {
    var tables := TablesFor(p, addresses)[..levels];
    if levels > 0 {
      TotalIsSpanCount(p, addresses, levels - 1);
      assert tables[..levels - 1] == TablesFor(p, addresses)[..levels - 1];
      TablesAreSpans(p, addresses, levels - 1);
    }
  }

  lemma {:induction false} NoTablesTotal(tables: seq<set<nat>>)
    requires forall l :: 0 <= l < |tables| ==> tables[l] == {}
    ensures Total(tables) == 0
  {
    if tables != [] {
      NoTablesTotal(tables[..|tables| - 1]);
    }
  }

  lemma {:induction false} NewTableTotal(tables: seq<set<nat>>, level: nat, index: nat)
    requires level < |tables| && index !in tables[level]
    ensures Total(tables[level := tables[level] + {index}]) == Total(tables) + 1
  {
    var last := |tables| - 1;
    var more := tables[level := tables[level] + {index}];
    if level < last {
      NewTableTotal(tables[..last], level, index);
      assert more[..last] == tables[..last][level := tables[level] + {index}];
    } else {
      assert more[..last] == tables[..last];
    }
  }

  lemma SubsetIsSmaller(a: set<nat>, b: set<nat>)
    requires a <= b
    ensures |a| <= |b|
  {
    assert b == a + (b - a);
  }

  lemma {:induction false} SmallerTotal(part: seq<set<nat>>, all: seq<set<nat>>)
    requires |part| == |all| && forall l :: 0 <= l < |all| ==> part[l] <= all[l]
    ensures Total(part) <= Total(all)
  {
    if all != [] {
      var last := |all| - 1;
      SmallerTotal(part[..last], all[..last]);
      SubsetIsSmaller(part[last], all[last]);
    }
  }

  lemma PartIsSmaller(p: Platform, addresses: seq<usize>, level: nat, done: nat)
    requires done <= |addresses|
    ensures Total(TablesUpTo(p, addresses, level, done)) <= Total(TablesFor(p, addresses))
  {
    var part, all := TablesUpTo(p, addresses, level, done), TablesFor(p, addresses);
    forall l | 0 <= l < p.Levels()
      ensures part[l] <= all[l]
    {
      if 0 < l <= level {
        var some := if l < level then addresses else addresses[..done];
        assert part[l] == TablesAt(p, some, l) && all[l] == TablesAt(p, addresses, l);
        assert forall a :: a in some ==> a in addresses;
      }
    }
    SmallerTotal(part, all);
  }

  datatype VSpace = VSpace(root: usize)

  // The address space behind a root capability.
  ghost function SpaceOf(s: KernelState, vspace: VSpace): AddressSpace
    requires s.HasVSpace(vspace.root)
  {
    s.vspaces[s.root[vspace.root].id]
  }

  // An address space of this construction, ready for tables.
  ghost predicate Ready(p: Platform, s: KernelState, vspace: VSpace, base: nat) {
    && s.HasVSpace(vspace.root)
    && base <= s.root[vspace.root].id
    && base <= s.nextId
    && SpaceOf(s, vspace).hasAsid
    && |SpaceOf(s, vspace).tables| == p.Levels()
  }

  // Only this address space changed, and the root CNode.
  ghost predicate OnlySpaceChanged(a: KernelState, b: KernelState, vspace: VSpace, space: AddressSpace)
    requires a.HasVSpace(vspace.root)
  {
    && b.vspaces == a.vspaces[a.root[vspace.root].id := space]
    && b.cnodes == a.cnodes
    && b.threads == a.threads
    && b.HasVSpace(vspace.root)
    && b.root[vspace.root] == a.root[vspace.root]
  }

  // A new table in `slot`, mapped where the walk for `address` ends at `level`.
  function TableMapped(p: Platform, s: KernelState, slot: nat, level: nat, vspace: VSpace, address: nat): KernelState
    requires s.HasVSpace(vspace.root) && level < p.Levels() == |s.vspaces[s.root[vspace.root].id].tables|
  {
    var id := s.root[vspace.root].id;
    var space := s.vspaces[id];
    s.(root := s.root[slot := ObjectCap(TableKind(level), s.nextId, ALL_RIGHTS, 0, true)],
       vspaces := s.vspaces[id :=
         space.(tables := space.tables[level := space.tables[level] + {p.Index(level, address)}])],
       nextId := s.nextId + 1)
  }

  lemma TableIsMapped(p: Platform, s: KernelState, slot: nat, level: nat, vspace: VSpace, address: nat)
    requires slot !in s.root && s.HasVSpace(vspace.root) && SpaceOf(s, vspace).hasAsid
    requires 0 < level < p.Levels() == |SpaceOf(s, vspace).tables|
    requires level == 1 || SpaceOf(s, vspace).HasTable(p, level - 1, address)
    requires !SpaceOf(s, vspace).HasTable(p, level, address)
    ensures var made := Effect(p, s, Retype(0, TableKind(level), slot));
            var call := MapTable(slot, level, vspace.root, address);
            Refusal(p, made, call) == None && Effect(p, made, call) == TableMapped(p, s, slot, level, vspace, address)
  {
  }

  lemma TableGrew(p: Platform, base: nat, a: Snapshot, b: Snapshot, level: nat, vspace: VSpace, address: nat)
    requires a.kernel.Consistent() && Ready(p, a.kernel, vspace, base) && level < p.Levels()
    requires a.slots.start < a.slots.end && a.slots.start !in a.kernel.root
    requires b.slots == a.slots.(start := a.slots.start + 1) && NoDeletes(a, b)
    requires b.kernel == TableMapped(p, a.kernel, a.slots.start, level, vspace, address)
    ensures Grew(base, a, b)
  {
  }

  // Makes one table and maps it where the walk for `address` ends at `level`.
  method AddTable(b: Bootstrap, vspace: VSpace, level: nat, address: usize, ghost base: nat)
    returns (r: Result<(), BootstrapError>)
    requires b.Wired() && Ready(b.kernel.platform, b.kernel.s, vspace, base)
    requires 0 < level < b.kernel.platform.Levels()
    requires level == 1 || SpaceOf(b.kernel.s, vspace).HasTable(b.kernel.platform, level - 1, address)
    requires !SpaceOf(b.kernel.s, vspace).HasTable(b.kernel.platform, level, address)
    modifies b.slots, b.kernel
    ensures b.Wired() && Grew(base, old(b.Now()), b.Now()) && NoCollisions(old(b.Now()), b.Now())
    ensures r.Ok? ==>
              var space := old(SpaceOf(b.kernel.s, vspace));
              var index := b.kernel.platform.Index(level, address);
              && b.slots.start == old(b.slots.start) + 1
              && OnlySpaceChanged(old(b.kernel.s), b.kernel.s, vspace,
                                  space.(tables := space.tables[level := space.tables[level] + {index}]))
    ensures r != Err(InvalidTaskConfiguration)
    ensures r == Err(NoFreeSlots) ==> old(b.slots.start) + 1 > b.slots.end
    ensures r.Err? ==> b.Explains(|old(b.kernel.log)|, r.error)
                       && OnlySpaceChanged(old(b.kernel.s), b.kernel.s, vspace, old(SpaceOf(b.kernel.s, vspace)))
  {
    ghost var before := b.Now();
    var made := b.AllocateObject(TableKind(level), base);
    if made.Err? {
      return Err(made.error);
    }
    TableIsMapped(b.kernel.platform, before.kernel, made.value, level, vspace, address);
    var done := b.Do(MapTable(made.value, level, vspace.root, address), before);
    if !done {
      return Err(VSpaceCreationFailed);
    }
    TableGrew(b.kernel.platform, base, before, b.Now(), level, vspace, address);
    return Ok(());
  }

  lemma FirstOfItsSpan(p: Platform, addresses: seq<usize>, level: nat, i: nat)
    requires 0 < level < p.Levels() && i < |addresses|
    ensures var index := p.Index(level, addresses[i]);
            var tables := TablesUpTo(p, addresses, level, i);
            && (index in tables[level] <==> exists prior :: prior in addresses[..i] && p.Index(level, prior) == index)
            && TablesUpTo(p, addresses, level, i + 1) == tables[level := tables[level] + {index}]
            && (level > 1 ==> p.Index(level - 1, addresses[i]) in tables[level - 1])
  {
    assert addresses[..i + 1] == addresses[..i] + [addresses[i]];
    var tables := TablesUpTo(p, addresses, level, i);
    assert TablesAt(p, addresses[..i + 1], level)
        == TablesAt(p, addresses[..i], level) + {p.Index(level, addresses[i])};
    assert TablesUpTo(p, addresses, level, i + 1) == tables[level := tables[level] + {p.Index(level, addresses[i])}];
    if level > 1 {
      assert addresses[i] in addresses;
      assert p.Index(level - 1, addresses[i]) in TablesAt(p, addresses, level - 1);
    }
  }

  lemma LevelDone(p: Platform, addresses: seq<usize>, level: nat)
    requires 0 < level < p.Levels()
    ensures TablesUpTo(p, addresses, level, |addresses|) == TablesUpTo(p, addresses, level + 1, 0)
  {
    assert addresses[..|addresses|] == addresses;
    var upper, lower := TablesUpTo(p, addresses, level, |addresses|), TablesUpTo(p, addresses, level + 1, 0);
    forall l | 0 <= l < p.Levels()
      ensures upper[l] == lower[l]
    {
      assert l == level + 1 ==> TablesAt(p, addresses[..0], l) == {};
    }
    assert TablesUpTo(p, addresses, level, |addresses|) == TablesUpTo(p, addresses, level + 1, 0);
  }

  // Every address has a table at each level of its walk.
  lemma TablesForCovers(p: Platform, addresses: seq<usize>, address: usize, space: AddressSpace)
    requires address in addresses && space.tables == TablesFor(p, addresses)
    ensures space.HasPath(p, address)
  {
    forall level: nat | 0 < level < p.Levels()
      ensures space.HasTable(p, level, address)
    {
      assert p.Index(level, address) in TablesAt(p, addresses, level);
    }
  }

  lemma NothingMappedYet(p: Platform, addresses: seq<usize>, tables: seq<set<nat>>)
    requires tables == seq(p.Levels(), _ => {})
    ensures tables == TablesUpTo(p, addresses, 1, 0) && Total(tables) == 0
    ensures p.Levels() <= 1 ==> TablesUpTo(p, addresses, 1, 0) == TablesFor(p, addresses)
  {
    forall l | 0 <= l < p.Levels()
      ensures TablesUpTo(p, addresses, 1, 0)[l] == {}
    {
      assert l == 1 ==> TablesAt(p, addresses[..0], l) == {};
    }
    NoTablesTotal(tables);
  }

  // Some level's tables would cover the whole address space or more.
  predicate SpansOverflow(p: Platform) {
    exists level :: 0 < level < p.Levels() && p.spanBits[level] >= WORD_SIZE
  }

  // A construction that started at `s0` and came to `s1`, with the tables it has made since: one
  // root slot has gone into each.
  ghost predicate TablesSoFar(b: Bootstrap, s0: Snapshot, s1: Snapshot, vspace: VSpace, tables: seq<set<nat>>,
                              base: nat)
    requires s1.kernel.HasVSpace(vspace.root)
    reads b, b.slots, b.kernel
  {
    && b.Wired()
    && Grew(base, s0, b.Now())
    && NoCollisions(s0, b.Now())
    && b.slots.start == s1.slots.start + Total(tables)
    && OnlySpaceChanged(s1.kernel, b.kernel.s, vspace, SpaceOf(s1.kernel, vspace).(tables := tables))
  }

  // How such a construction stopped.
  ghost predicate TablesStopped(b: Bootstrap, s0: Snapshot, s1: Snapshot, base: nat, error: BootstrapError)
    reads b, b.slots, b.kernel
  {
    && b.Wired()
    && Grew(base, s0, b.Now())
    && NoCollisions(s0, b.Now())
    && b.Explains(|s0.log|, error)
    && b.kernel.s.cnodes == s1.kernel.cnodes && b.kernel.s.threads == s1.kernel.threads
  }

  lemma OneMoreTable(a: KernelState, b: KernelState, c: KernelState, vspace: VSpace, tables: seq<set<nat>>,
                     more: seq<set<nat>>)
    requires a.HasVSpace(vspace.root)
    requires OnlySpaceChanged(a, b, vspace, SpaceOf(a, vspace).(tables := tables))
    requires OnlySpaceChanged(b, c, vspace, SpaceOf(b, vspace).(tables := more))
    ensures OnlySpaceChanged(a, c, vspace, SpaceOf(a, vspace).(tables := more))
  {
  }

  // The table for one address, unless an earlier address of the level shares it.
  method MapNext(b: Bootstrap, vspace: VSpace, addresses: seq<usize>, level: nat, index: nat,
                 ghost s0: Snapshot, ghost s1: Snapshot, ghost base: nat)
    returns (r: Result<(), BootstrapError>)
    requires 0 < level < b.kernel.platform.Levels() && index < |addresses|
    requires Ready(b.kernel.platform, s1.kernel, vspace, base)
    requires TablesSoFar(b, s0, s1, vspace, TablesUpTo(b.kernel.platform, addresses, level, index), base)
    modifies b.slots, b.kernel
    ensures r.Ok? ==> TablesSoFar(b, s0, s1, vspace, TablesUpTo(b.kernel.platform, addresses, level, index + 1), base)
    ensures r == Err(NoFreeSlots) ==>
              s1.slots.start + Total(TablesFor(b.kernel.platform, addresses)) > b.slots.end
    ensures r.Err? ==> TablesStopped(b, s0, s1, base, r.error) && r.error != InvalidTaskConfiguration
  {
    var p := b.kernel.platform;
    ghost var tables := TablesUpTo(p, addresses, level, index);
    var tableBase := p.Index(level, addresses[index]);
    FirstOfItsSpan(p, addresses, level, index);
    if exists prior | prior in addresses[..index] :: p.Index(level, prior) == tableBase {
      assert tables[level] + {tableBase} == tables[level];
      assert tables[level := tables[level] + {tableBase}] == tables;
      return Ok(());
    }
    ghost var between := b.Now();
    NewTableTotal(tables, level, tableBase);
    PartIsSmaller(p, addresses, level, index + 1);
    var made := AddTable(b, vspace, level, addresses[index], base);
    GrewThenGrew(base, s0, between, b.Now());
    if made.Err? {
      return Err(made.error);
    }
    OneMoreTable(s1.kernel, between.kernel, b.kernel.s, vspace, tables, tables[level := tables[level] + {tableBase}]);
    return Ok(());
  }

  // The tables of one level, once those of the level above are in place.
  method MapLevel(b: Bootstrap, vspace: VSpace, addresses: seq<usize>, level: nat,
                  ghost s0: Snapshot, ghost s1: Snapshot, ghost base: nat)
    returns (r: Result<(), BootstrapError>)
    requires 0 < level < b.kernel.platform.Levels() && Ready(b.kernel.platform, s1.kernel, vspace, base)
    requires TablesSoFar(b, s0, s1, vspace, TablesUpTo(b.kernel.platform, addresses, level, 0), base)
    modifies b.slots, b.kernel
    ensures r.Ok? ==> TablesSoFar(b, s0, s1, vspace, TablesUpTo(b.kernel.platform, addresses, level + 1, 0), base)
    ensures r == Err(NoFreeSlots) ==>
              s1.slots.start + Total(TablesFor(b.kernel.platform, addresses)) > b.slots.end
    ensures r.Err? ==> TablesStopped(b, s0, s1, base, r.error)
    ensures r == Err(InvalidTaskConfiguration) ==> SpansOverflow(b.kernel.platform)
  {
    if b.kernel.platform.spanBits[level] >= WORD_SIZE {
      return Err(InvalidTaskConfiguration);
    }
    var index := 0;
    while index < |addresses|
      invariant 0 <= index <= |addresses|
      invariant TablesSoFar(b, s0, s1, vspace, TablesUpTo(b.kernel.platform, addresses, level, index), base)
    {
      r := MapNext(b, vspace, addresses, level, index, s0, s1, base);
      if r.Err? {
        return;
      }
      index := index + 1;
    }
    LevelDone(b.kernel.platform, addresses, level);
    return Ok(());
  }

  // The tables of all levels, from the one below the root down.
  method MapLevels(b: Bootstrap, vspace: VSpace, addresses: seq<usize>, ghost s0: Snapshot, ghost s1: Snapshot,
                   ghost base: nat)
    returns (r: Result<(), BootstrapError>)
    requires Ready(b.kernel.platform, s1.kernel, vspace, base)
    requires TablesSoFar(b, s0, s1, vspace, TablesUpTo(b.kernel.platform, addresses, 1, 0), base)
    requires b.kernel.platform.Levels() <= 1 ==>
               TablesUpTo(b.kernel.platform, addresses, 1, 0) == TablesFor(b.kernel.platform, addresses)
    modifies b.slots, b.kernel
    ensures r.Ok? ==> TablesSoFar(b, s0, s1, vspace, TablesFor(b.kernel.platform, addresses), base)
    ensures r == Err(NoFreeSlots) ==>
              s1.slots.start + Total(TablesFor(b.kernel.platform, addresses)) > b.slots.end
    ensures r.Err? ==> TablesStopped(b, s0, s1, base, r.error)
    ensures r == Err(InvalidTaskConfiguration) ==> SpansOverflow(b.kernel.platform)
  {
    var level := 1;
    while level < b.kernel.platform.Levels()
      invariant 1 <= level && (level == 1 || level <= b.kernel.platform.Levels())
      invariant TablesSoFar(b, s0, s1, vspace, TablesUpTo(b.kernel.platform, addresses, level, 0), base)
    {
      r := MapLevel(b, vspace, addresses, level, s0, s1, base);
      if r.Err? {
        return;
      }
      level := level + 1;
    }
    return Ok(());
  }

  // Makes each distinct table once, parents before children.
  method MapTranslationTables(b: Bootstrap, vspace: VSpace, pages: seq<usize>, reserved: seq<usize>,
                              ghost s0: Snapshot, ghost base: nat)
    returns (r: Result<(), BootstrapError>)
    requires Grew(base, s0, b.Now()) && NoCollisions(s0, b.Now())
    requires b.Wired() && Ready(b.kernel.platform, b.kernel.s, vspace, base)
    requires SpaceOf(b.kernel.s, vspace).tables == seq(b.kernel.platform.Levels(), _ => {})
    modifies b.slots, b.kernel
    ensures r.Ok? ==> TablesSoFar(b, s0, old(b.Now()), vspace, TablesFor(b.kernel.platform, pages + reserved), base)
    ensures r == Err(NoFreeSlots) ==>
              old(b.slots.start) + Total(TablesFor(b.kernel.platform, pages + reserved)) > b.slots.end
    ensures r.Err? ==> TablesStopped(b, s0, old(b.Now()), base, r.error)
    ensures r == Err(InvalidTaskConfiguration) ==> SpansOverflow(b.kernel.platform)
  {
    ghost var s1 := b.Now();
    NothingMappedYet(b.kernel.platform, pages + reserved, SpaceOf(b.kernel.s, vspace).tables);
    r := MapLevels(b, vspace, pages + reserved, s0, s1, base);
  }

  // A new address space in `slot`, with or without an ASID.
  function NewSpace(p: Platform, s: KernelState, slot: nat, hasAsid: bool): KernelState {
    s.(root := s.root[slot := ObjectCap(VSpaceKind, s.nextId, ALL_RIGHTS, 0, false)],
       vspaces := s.vspaces[s.nextId := AddressSpace(hasAsid, seq(p.Levels(), _ => {}), map[])],
       nextId := s.nextId + 1)
  }

  lemma NewSpaceIsMade(p: Platform, s: KernelState, slot: nat)
    requires slot !in s.root
    ensures Effect(p, s, Retype(0, VSpaceKind, slot)) == NewSpace(p, s, slot, false)
    ensures Refusal(p, NewSpace(p, s, slot, false), AssignAsid(slot)) == None
    ensures Effect(p, NewSpace(p, s, slot, false), AssignAsid(slot)) == NewSpace(p, s, slot, true)
  {
  }

  lemma NewSpaceGrew(p: Platform, base: nat, a: Snapshot, b: Snapshot, hasAsid: bool)
    requires a.kernel.Consistent() && base <= a.kernel.nextId
    requires a.slots.start < a.slots.end && a.slots.start !in a.kernel.root
    requires b.slots == a.slots.(start := a.slots.start + 1) && NoDeletes(a, b)
    requires b.kernel == NewSpace(p, a.kernel, a.slots.start, hasAsid)
    ensures Grew(base, a, b)
  {
  }

  // An empty address space with an ASID.
  method CreateRoot(b: Bootstrap, ghost base: nat) returns (r: Result<VSpace, BootstrapError>)
    requires b.Wired() && base <= b.kernel.s.nextId
    modifies b.slots, b.kernel
    ensures b.Wired() && Grew(base, old(b.Now()), b.Now()) && NoCollisions(old(b.Now()), b.Now())
    ensures r.Ok? ==>
              && r.value == VSpace(old(b.slots.start))
              && b.slots.start == old(b.slots.start) + 1
              && b.kernel.s == NewSpace(b.kernel.platform, old(b.kernel.s), r.value.root, true)
    ensures r != Err(InvalidTaskConfiguration)
    ensures r == Err(NoFreeSlots) ==> old(b.slots.start) + 1 > b.slots.end
    ensures r.Err? ==> b.Explains(|old(b.kernel.log)|, r.error)
                       && b.kernel.s.cnodes == old(b.kernel.s.cnodes) && b.kernel.s.threads == old(b.kernel.s.threads)
  {
    ghost var before := b.Now();
    var made := b.AllocateObject(VSpaceKind, base);
    if made.Err? {
      return Err(made.error);
    }
    var vspace := VSpace(made.value);
    NewSpaceIsMade(b.kernel.platform, before.kernel, vspace.root);
    var done := b.Do(AssignAsid(vspace.root), before);
    NewSpaceGrew(b.kernel.platform, base, before, b.Now(), done);
    if !done {
      return Err(VSpaceCreationFailed);
    }
    return Ok(vspace);
  }

  // A new address space in `slot` with these tables, and otherwise the kernel objects of `a`.
  ghost predicate SpaceAdded(a: KernelState, b: KernelState, slot: nat, tables: seq<set<nat>>) {
    && b.HasVSpace(slot)
    && b.root[slot].id == a.nextId
    && b.vspaces == a.vspaces[a.nextId := AddressSpace(true, tables, map[])]
    && b.cnodes == a.cnodes
    && b.threads == a.threads
  }

  lemma NewSpaceIsFilled(p: Platform, a: KernelState, b: KernelState, slot: usize, tables: seq<set<nat>>)
    requires a.Consistent()
    requires var s := NewSpace(p, a, slot, true);
             OnlySpaceChanged(s, b, VSpace(slot), SpaceOf(s, VSpace(slot)).(tables := tables))
    ensures SpaceAdded(a, b, slot, tables)
  {
  }

  // The tables of the address space that the construction which started at `s0` has just made.
  method FillSpace(b: Bootstrap, vspace: VSpace, pages: seq<usize>, reserved: seq<usize>,
                   ghost s0: Snapshot, ghost base: nat)
    returns (r: Result<VSpace, BootstrapError>)
    requires b.Wired() && s0.kernel.Consistent() && base <= s0.kernel.nextId
    requires Grew(base, s0, b.Now()) && NoCollisions(s0, b.Now())
    requires b.slots.start == s0.slots.start + 1
    requires b.kernel.s == NewSpace(b.kernel.platform, s0.kernel, vspace.root, true)
    modifies b.slots, b.kernel
    ensures r.Ok? ==>
              var tables := TablesFor(b.kernel.platform, pages + reserved);
              && b.Wired() && Grew(base, s0, b.Now()) && NoCollisions(s0, b.Now())
              && r.value == vspace
              && b.slots.start == s0.slots.start + 1 + Total(tables)
              && SpaceAdded(s0.kernel, b.kernel.s, vspace.root, tables)
    ensures r == Err(InvalidTaskConfiguration) ==> SpansOverflow(b.kernel.platform)
    ensures r == Err(NoFreeSlots) ==>
              s0.slots.start + 1 + Total(TablesFor(b.kernel.platform, pages + reserved)) > b.slots.end
    ensures r.Err? ==> TablesStopped(b, s0, s0, base, r.error)
  {
    var mapped := MapTranslationTables(b, vspace, pages, reserved, s0, base);
    if mapped.Err? {
      return Err(mapped.error);
    }
    NewSpaceIsFilled(b.kernel.platform, s0.kernel, b.kernel.s, vspace.root,
                     TablesFor(b.kernel.platform, pages + reserved));
    return Ok(vspace);
  }

  // Makes an address space with a complete walk for every requested page, and no page mapped.
  method Create(b: Bootstrap, pages: seq<usize>, reserved: seq<usize>, ghost base: nat)
    returns (r: Result<VSpace, BootstrapError>)
    requires b.Wired() && base <= b.kernel.s.nextId
    modifies b.slots, b.kernel
    ensures b.Wired() && Grew(base, old(b.Now()), b.Now()) && NoCollisions(old(b.Now()), b.Now())
    ensures r.Ok? ==>
              var tables := TablesFor(b.kernel.platform, pages + reserved);
              && r.value == VSpace(old(b.slots.start))
              && b.slots.start == old(b.slots.start) + 1 + Total(tables)
              && SpaceAdded(old(b.kernel.s), b.kernel.s, r.value.root, tables)
    ensures r == Err(InvalidTaskConfiguration) ==> SpansOverflow(b.kernel.platform)
    ensures r == Err(NoFreeSlots) ==>
              old(b.slots.start) + 1 + Total(TablesFor(b.kernel.platform, pages + reserved)) > b.slots.end
    ensures r.Err? ==> TablesStopped(b, old(b.Now()), old(b.Now()), base, r.error)
  {
    ghost var s0 := b.Now();
    var made := CreateRoot(b, base);
    if made.Err? {
      return Err(made.error);
    }
    r := FillSpace(b, made.value, pages, reserved, s0, base);
  }

  // The walk for `address` is complete and ends in a free entry.
  ghost predicate CanMap(p: Platform, space: AddressSpace, address: nat) {
    space.hasAsid && space.HasPath(p, address) && address !in space.pages
  }

  // A copy of `frame` in `slot`, and that copy mapped.
  function Copied(s: KernelState, slot: nat, frame: nat, rights: Rights): KernelState
    requires s.KindAt(frame).Some?
  {
    s.(root := s.root[slot := Derived(s.root[frame], rights, 0)])
  }

  function Mapped(s: KernelState, slot: nat, frame: nat, vspace: VSpace, address: nat, rights: Rights): KernelState
    requires s.KindAt(frame).Some? && s.HasVSpace(vspace.root)
  {
    var id := s.root[vspace.root].id;
    var space := s.vspaces[id];
    var pages: map<nat, Page> := space.pages;
    s.(root := s.root[slot := Derived(s.root[frame], rights, 0).(mapped := true)],
       vspaces := s.vspaces[id :=
         space.(pages := pages[address := Page(s.root[frame].id, s.root[frame].rights.And(rights))])])
  }

  lemma RightsIdempotent(a: Rights, b: Rights)
    ensures a.And(b).And(b) == a.And(b)
  {
  }

  lemma CopyIsMapped(p: Platform, s: KernelState, slot: nat, frame: nat, vspace: VSpace, address: nat, rights: Rights)
    requires slot !in s.root && s.KindAt(frame).Some? && s.HasVSpace(vspace.root)
    ensures Effect(p, s, CopyCap(frame, rights, slot)) == Copied(s, slot, frame, rights)
    ensures var copied, call := Copied(s, slot, frame, rights), Kernels.MapFrame(slot, vspace.root, address, rights);
            && (CanMap(p, SpaceOf(s, vspace), address) && address % p.PageSize() == 0 ==>
                  Refusal(p, copied, call) == None || Refusal(p, copied, call) == Some(WrongCap))
            && (Refusal(p, copied, call) == None ==>
                  && s.KindAt(frame) == Some(FrameKind)
                  && CanMap(p, SpaceOf(s, vspace), address)
                  && Effect(p, copied, call) == Mapped(s, slot, frame, vspace, address, rights))
  {
    RightsIdempotent(s.root[frame].rights, rights);
  }

  lemma CopyGrew(base: nat, a: Snapshot, b: Snapshot, frame: nat, vspace: VSpace, address: nat, rights: Rights)
    requires a.kernel.KindAt(frame).Some? && a.kernel.HasVSpace(vspace.root) && base <= a.kernel.root[vspace.root].id
    requires a.slots.start < a.slots.end && a.slots.start !in a.kernel.root
    requires b.slots == a.slots.(start := a.slots.start + 1) && NoDeletes(a, b)
    requires b.kernel == Copied(a.kernel, a.slots.start, frame, rights)
          || b.kernel == Mapped(a.kernel, a.slots.start, frame, vspace, address, rights)
    ensures Grew(base, a, b)
  {
  }

  // Maps a copy of the frame's capability, so that the owner's stays unmapped.
  method MapFrame(b: Bootstrap, vspace: VSpace, frame: usize, address: usize, rights: Rights, ghost base: nat)
    returns (r: Result<usize, BootstrapError>)
    requires b.Wired() && b.kernel.s.HasVSpace(vspace.root)
    requires base <= b.kernel.s.nextId && base <= b.kernel.s.root[vspace.root].id
    modifies b.slots, b.kernel
    ensures b.Wired() && Grew(base, old(b.Now()), b.Now())
    ensures CanMap(b.kernel.platform, old(SpaceOf(b.kernel.s, vspace)), address) ==>
              NoCollisions(old(b.Now()), b.Now())
    ensures r.Ok? ==>
              && r.value == old(b.slots.start)
              && b.slots.start == r.value + 1
              && address % b.kernel.platform.PageSize() == 0
              && CanMap(b.kernel.platform, old(SpaceOf(b.kernel.s, vspace)), address)
              && old(b.kernel.s).KindAt(frame) == Some(FrameKind)
              && b.kernel.s == Mapped(old(b.kernel.s), r.value, frame, vspace, address, rights)
    ensures r != Err(NoKernelMemory)
    ensures r == Err(NoFreeSlots) ==> old(b.slots.start) + 1 > b.slots.end
    ensures r.Err? ==> b.Explains(|old(b.kernel.log)|, r.error) && b.slots.start <= old(b.slots.start) + 1
                       && b.kernel.s.(root := old(b.kernel.s.root)) == old(b.kernel.s)
    ensures address % b.kernel.platform.PageSize() != 0 ==>
              r == Err(InvalidTaskConfiguration) && b.Now() == old(b.Now())
    ensures r == Err(InvalidTaskConfiguration) ==> address % b.kernel.platform.PageSize() != 0
  {
    if address % b.kernel.platform.PageSize() != 0 {
      return Err(InvalidTaskConfiguration);
    }
    ghost var before := b.Now();
    var copied := b.CopyCap(frame, rights, base);
    if copied.Err? {
      return Err(copied.error);
    }
    var mapping := copied.value;
    CopyIsMapped(b.kernel.platform, before.kernel, mapping, frame, vspace, address, rights);
    var outcome := b.kernel.Invoke(Kernels.MapFrame(mapping, vspace.root, address, rights));
    CopyGrew(base, before, b.Now(), frame, vspace, address, rights);
    return if outcome == Done then Ok(mapping) else Err(FrameMappingFailed);
  }
}
