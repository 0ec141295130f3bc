/** All address spaces of a running system, with their trees of mappings, in one physical
    memory: what is done with one of them is a step of the world of all. */
module Machine {
  import opened Options
  import opened MemoryTypes
  import opened TreeShape
  import opened PageTables
  import opened Translation
  import opened Evolution
  import opened Mapping
  import opened Unmapping
  import opened PhysicalMemory
  import opened TableOps
  import opened AddressSpace
  import opened Spaces
  import opened Agreement
  import Teardown

  type Lists = map<nat, map<Item, nat>>

  // The trees of some address spaces, and the nodes of those trees.
  ghost function Trees(spaces: set<AddressSpace>): set<object> {
    set s | s in spaces :: s.tree
  }

  ghost function AllNodes(spaces: set<AddressSpace>): set<object>
    reads Trees(spaces)
  {
    set s, n | s in spaces && n in Nodes(s.tree.shape) :: n
  }

  ghost function NodesOf(spaces: set<AddressSpace>): map<AddressSpace, set<Node>>
    reads Trees(spaces)
  {
    map s | s in spaces :: Nodes(s.tree.shape)
  }

  // An address space whose records are in order, and whose list is the one known.
  ghost predicate Ready(s: AddressSpace, mem: Memory, kernel: nat, lists: Lists)
    reads s, s.tree, Nodes(s.tree.shape)
  {
    && s.mem == mem && s.isKernel == (s.pml4 == kernel) && s.Records()
    && s.pml4 in lists && lists[s.pml4] == s.maps
  }

  // No two have anything of their own in common.
  ghost predicate Distinct(spaces: set<AddressSpace>) {
    forall s, t :: s in spaces && t in spaces && s != t ==> s.tree != t.tree && s.pml4 != t.pml4
  }

  ghost predicate Separate(spaces: set<AddressSpace>)
    reads Trees(spaces)
  {
    forall s, t :: s in spaces && t in spaces && s != t ==> Nodes(s.tree.shape) !! Nodes(t.tree.shape)
  }

  ghost predicate AllReady(spaces: set<AddressSpace>, mem: Memory, kernel: nat, lists: Lists)
    reads spaces, Trees(spaces), AllNodes(spaces)
  {
    Distinct(spaces) && Separate(spaces) && forall s :: s in spaces ==> Ready(s, mem, kernel, lists)
  }

  // The lists that are known are those of the address spaces.
  ghost predicate Listed(spaces: set<AddressSpace>, lists: Lists) {
    forall r :: r in lists ==> exists s :: s in spaces && s.pml4 == r
  }

  ghost function State(mem: Memory, lists: Lists): World
    reads mem
  {
    World(mem.frames, mem.places, mem.kernel, lists)
  }

  // Every address space is in order, and so is the world of all.
  ghost predicate Running(mem: Memory, spaces: set<AddressSpace>, lists: Lists)
    reads mem, mem.heap, spaces, Trees(spaces), AllNodes(spaces)
  {
    && AllReady(spaces, mem, mem.kernel, lists) && Listed(spaces, lists)
    && mem.Valid() && WorldOk(State(mem, lists))
  }

  ghost function With(spaces: set<AddressSpace>, s: AddressSpace): set<AddressSpace> {
    spaces + {s}
  }

  ghost function Updated(s: AddressSpace, lists: Lists): Lists
    reads s
  {
    lists[s.pml4 := s.maps]
  }

  // ----- what happens to one of them -----

  /** The system starts with the kernel's address space alone. */
  method Boot(mem: Memory) returns (k: AddressSpace?)
    requires mem.Valid() && mem.places == map[]
    modifies mem, mem.heap
    ensures k != null ==> fresh(k) && fresh(k.tree) && Nodes(k.tree.shape) == {} && k.isKernel
    ensures k != null ==> Running(mem, {k}, map[k.pml4 := map[]])
  {
    k := CreateKernel(mem);
    if k != null {
      FirstWorld(mem, k);
    }
  }

  /** Maps memory in one of the address spaces. All are in order afterwards, and so is the world,
      exactly when the range does not leave the canonical halves and no user was born before the
      kernel's first mapping. All agree in more cases: exactly when the step is harmless. */
  method MapIn(mem: Memory, ghost spaces: set<AddressSpace>, ghost lists: Lists, s: AddressSpace,
      virt: nat, length: nat, kind: MemoryType, phys: nat) returns (r: Option<nat>)
    requires Running(mem, spaces, lists) && s in spaces
    requires virt < WORD && length < WORD && phys < WORD
    modifies mem`frames, mem`places, mem.heap, s, s.tree, Nodes(s.tree.shape)
    ensures r.Some? ==> (Contiguous(r.value, length) <==> InPart(s.isKernel, r.value, length))
    ensures r.Some? ==>
      Became(old(State(mem, lists)), Map(s.pml4, Item(r.value, length, kind), phys), mem, spaces, Updated(s, lists))
    ensures r.Some? ==> fresh(AllNodes(spaces) - old(AllNodes(spaces)))
  {
    hide *;
    SpaceValid(mem, spaces, lists, s);
    BesideOf(spaces, s, mem, mem.kernel, lists);
    ghost var w, nodes, before := State(mem, lists), NodesOf(spaces), AllNodes(spaces);
    StateIs(mem, lists);
    r := MapBeside(mem, spaces, nodes, lists, s, virt, length, kind, phys);
    if r.None? {
      return;
    }
    AfterMap(w, mem, spaces, nodes, lists, s, Item(r.value, length, kind), phys);
    NodesNow(spaces, s, nodes, before);
  }

  // An operation has been carried out: it is a step, all is in order afterwards exactly when it
  // was sound, and all agree exactly when it was harmless.
  ghost predicate Became(w: World, op: Op, mem: Memory, spaces: set<AddressSpace>, lists: Lists)
    reads mem, mem.heap, spaces, Trees(spaces), AllNodes(spaces)
  {
    && Step(w, op, State(mem, lists))
    && (Sound(w, op) ==> Running(mem, spaces, lists))
    && (!Sound(w, op) ==> !WorldOk(State(mem, lists)))
    && (Agree(State(mem, lists)) <==> Harmless(w, op))
    && (!Outside(w, op) ==> (Harmless(w, op) <==> Sound(w, op)))
  }

  // The others stay as they are.
  method MapBeside(mem: Memory, ghost spaces: set<AddressSpace>, ghost nodes: map<AddressSpace, set<Node>>,
      ghost lists: Lists, s: AddressSpace, virt: nat, length: nat, kind: MemoryType, phys: nat)
    returns (r: Option<nat>)
    requires s.Valid() && s.mem == mem && nodes.Keys == spaces
    requires forall t :: t in spaces && t != s ==> Ready(t, mem, mem.kernel, lists) && allocated(Nodes(t.tree.shape))
    requires forall t :: t in spaces && t != s ==> nodes[t] == Nodes(t.tree.shape)
    requires forall t :: t in spaces && t != s ==> t.tree != s.tree && Nodes(s.tree.shape) !! nodes[t]
    requires virt < WORD && length < WORD && phys < WORD
    modifies mem`frames, mem`places, mem.heap, s, s.tree, Nodes(s.tree.shape)
    ensures forall t :: t in spaces && t != s ==> Ready(t, mem, mem.kernel, lists) && nodes[t] == Nodes(t.tree.shape)
    ensures r.Some? ==> mem.Valid() && fresh(Nodes(s.tree.shape) - old(Nodes(s.tree.shape)))
    ensures r.Some? ==> forall t :: t in spaces && t != s ==> Nodes(s.tree.shape) !! nodes[t]
    ensures r.Some? ==>
      s.IsMapped(old(mem.frames), old(mem.places), old(s.maps), Item(r.value, length, kind), phys)
    ensures r.Some? ==> (s.Valid() <==> InPart(s.isKernel, r.value, length))
    ensures r.Some? ==> (Contiguous(r.value, length) <==> InPart(s.isKernel, r.value, length))
  {
    hide *;
    r := s.MapMemory(virt, length, kind, phys);
  }

  /** Unmaps in one of the address spaces, from any address. All are in order afterwards, and
      all agree, exactly when the address was in the first page of what was found. */
  method UnmapIn(mem: Memory, ghost spaces: set<AddressSpace>, ghost lists: Lists, s: AddressSpace,
      virt: nat, length: nat) returns (end: Option<Ending>, m: Item)
    requires Running(mem, spaces, lists) && s in spaces && virt < WORD && length < WORD
    modifies mem`frames, s`maps, s.tree, Nodes(s.tree.shape)
    ensures end.None? ==> Running(mem, spaces, lists)
    ensures end.Some? ==> Became(old(State(mem, lists)), Unmap(s.pml4, virt, m), mem, spaces, Updated(s, lists))
    ensures AllNodes(spaces) <= old(AllNodes(spaces))
  {
    SpaceValid(mem, spaces, lists, s);
    BesideOf(spaces, s, mem, mem.kernel, lists);
    ghost var w, nodes, before := State(mem, lists), NodesOf(spaces), AllNodes(spaces);
    StateIs(mem, lists);
    hide *;
    end, m := UnmapBeside(mem, spaces, nodes, lists, s, virt, length);
    AfterUnmap(w, mem, spaces, nodes, lists, s, end.Some?, virt, m);
    NodesNow(spaces, s, nodes, before);
  }

  method UnmapBeside(mem: Memory, ghost spaces: set<AddressSpace>, ghost nodes: map<AddressSpace, set<Node>>,
      ghost lists: Lists, s: AddressSpace, virt: nat, length: nat) returns (end: Option<Ending>, m: Item)
    requires s.Valid() && s.mem == mem && nodes.Keys == spaces
    requires forall t :: t in spaces && t != s ==> Ready(t, mem, mem.kernel, lists) && allocated(Nodes(t.tree.shape))
    requires forall t :: t in spaces && t != s ==> nodes[t] == Nodes(t.tree.shape)
    requires forall t :: t in spaces && t != s ==> t.tree != s.tree && Nodes(s.tree.shape) !! nodes[t]
    requires virt < WORD && length < WORD
    modifies mem`frames, s`maps, s.tree, Nodes(s.tree.shape)
    ensures forall t :: t in spaces && t != s ==> Ready(t, mem, mem.kernel, lists) && nodes[t] == Nodes(t.tree.shape)
    ensures forall t :: t in spaces && t != s ==> Nodes(s.tree.shape) !! nodes[t]
    ensures s.Records() && mem.Valid() && Nodes(s.tree.shape) <= old(Nodes(s.tree.shape))
    ensures mem.places == old(mem.places) && mem.kernel == old(mem.kernel)
    ensures end.None? ==> s.maps == old(s.maps) && mem.frames == old(mem.frames)
    ensures end.Some? ==> IsFound(old(s.maps), virt, length, m) && m.length == length && s.maps == old(s.maps) - {m}
    ensures end.Some? ==> mem.frames == UnmapOf(old(mem.frames), s.pml4, m, virt).frames
  {
    hide *;
    end, m := s.UnmapMemory(virt, length);
  }

  /** One more user. All are in order afterwards, whether the kernel has mapped something or not. */
  method NewUser(mem: Memory, ghost spaces: set<AddressSpace>, ghost lists: Lists, k: AddressSpace)
    returns (s: AddressSpace?)
    requires Running(mem, spaces, lists) && k in spaces && k.isKernel
    modifies mem`frames, mem`places, mem.heap
    ensures s != null ==> fresh(s) && fresh(s.tree) && Nodes(s.tree.shape) == {}
    ensures s != null ==>
      Step(old(State(mem, lists)), Create(s.pml4), State(mem, Updated(s, lists)))
    ensures s != null ==> Running(mem, With(spaces, s), Updated(s, lists))
    ensures s != null ==> s !in spaces && AllNodes(With(spaces, s)) <= old(AllNodes(spaces))
    ensures s == null ==> mem.NoRoom()
  {
    SpaceValid(mem, spaces, lists, k);
    NodesIs(spaces, mem, mem.kernel, lists);
    RootIsKernel(mem, k.pml4);
    ghost var f0, p0, nodes, before := mem.frames, mem.places, NodesOf(spaces), AllNodes(spaces);
    StateIs(mem, lists);
    hide *;
    s := CreateBeside(mem, spaces, nodes, lists, k);
    if s != null {
      Join(f0, p0, mem, spaces, nodes, lists, s, before);
    }
  }

  /** A user's address space is taken down. */
  method Close(mem: Memory, ghost spaces: set<AddressSpace>, ghost lists: Lists, s: AddressSpace)
    requires Running(mem, spaces, lists) && s in spaces && !s.isKernel
    modifies mem`frames, mem`places, mem`freed, mem.heap
    ensures Running(mem, spaces - {s}, lists - {s.pml4})
    ensures Step(old(State(mem, lists)), Destroy(s.pml4), State(mem, lists - {s.pml4}))
    ensures AllNodes(spaces - {s}) <= old(AllNodes(spaces))
  {
    SpaceValid(mem, spaces, lists, s);
    ghost var w, nodes, before := State(mem, lists), NodesOf(spaces), AllNodes(spaces);
    NodesIs(spaces, mem, mem.kernel, lists);
    hide *;
    CloseBeside(mem, spaces, nodes, lists, s);
    CloseStep(w, mem, lists, s);
    LeaveReady(spaces, s, mem, lists, nodes);
    RunsOn(w, Destroy(s.pml4), mem, spaces - {s}, lists - {s.pml4});
    BecameRunning(w, Destroy(s.pml4), mem, spaces - {s}, lists - {s.pml4});
    NodesWithin(spaces - {s}, s, nodes, before);
  }

  method CloseBeside(mem: Memory, ghost spaces: set<AddressSpace>, ghost nodes: map<AddressSpace, set<Node>>,
      ghost lists: Lists, s: AddressSpace)
    requires s.Valid() && s.mem == mem && !s.isKernel && nodes.Keys == spaces
    requires forall t :: t in spaces ==> Ready(t, mem, mem.kernel, lists) && allocated(Nodes(t.tree.shape))
    requires forall t :: t in spaces ==> nodes[t] == Nodes(t.tree.shape)
    modifies mem`frames, mem`places, mem`freed, mem.heap
    ensures forall t :: t in spaces ==> Ready(t, mem, mem.kernel, lists) && nodes[t] == Nodes(t.tree.shape)
    ensures mem.Valid() && mem.places == WithoutOwner(old(mem.places), s.pml4)
    ensures KeepsOthers(old(mem.frames), old(mem.places), mem.frames, s.pml4)
  {
    hide *;
    Teardown.Destroy(s);
  }

  method CreateBeside(mem: Memory, ghost spaces: set<AddressSpace>, ghost nodes: map<AddressSpace, set<Node>>,
      ghost lists: Lists, k: AddressSpace) returns (s: AddressSpace?)
    requires mem.Valid() && IsRoot(mem, k.pml4, true) && nodes.Keys == spaces
    requires k.pml4 in mem.frames && |mem.frames[k.pml4]| == TABLE_SIZE
    requires forall t :: t in spaces ==> Ready(t, mem, mem.kernel, lists) && allocated(Nodes(t.tree.shape))
    requires forall t :: t in spaces ==> nodes[t] == Nodes(t.tree.shape)
    modifies mem`frames, mem`places, mem.heap
    ensures forall t :: t in spaces ==> Ready(t, mem, mem.kernel, lists) && nodes[t] == Nodes(t.tree.shape)
    ensures s != null ==> fresh(s) && fresh(s.tree) && Nodes(s.tree.shape) == {}
    ensures s != null ==> s !in spaces && forall t :: t in spaces ==> s.tree != t.tree
    ensures s != null ==> mem.Valid() && s.Records() && !s.isKernel && s.mem == mem && s.maps == map[]
    ensures s != null ==> s.pml4 !in old(mem.places)
    ensures s != null ==> mem.places == old(mem.places)[s.pml4 := Place(4, 0, s.pml4)]
    ensures s != null ==>
      mem.frames == old(mem.frames)[s.pml4 := BornWith(old(mem.frames)[k.pml4][KERNEL_PML4])]
    ensures s == null ==> mem.NoRoom()
  {
    hide *;
    s := CreateUser(mem, k.pml4);
  }

  // ----- proofs -----

  lemma FirstWorld(mem: Memory, k: AddressSpace)
    requires k.Valid() && k.isKernel && k.mem == mem && k.maps == map[]
    ensures Running(mem, {k}, map[k.pml4 := map[]])
  {
    assert k.isKernel == (k.pml4 == mem.kernel);
    assert SpaceOk(State(mem, map[k.pml4 := map[]]), k.pml4);
  }

  lemma SpaceValid(mem: Memory, spaces: set<AddressSpace>, lists: Lists, s: AddressSpace)
    requires Running(mem, spaces, lists) && s in spaces
    ensures s.Valid() && s.mem == mem && s.isKernel == (s.pml4 == mem.kernel) && IsRoot(mem, s.pml4, s.isKernel)
    ensures s.pml4 in lists && lists[s.pml4] == s.maps && WorldOk(State(mem, lists)) && mem.Valid()
    ensures State(mem, lists).lists == lists && State(mem, lists).kernel == mem.kernel
    ensures State(mem, lists).frames == mem.frames && State(mem, lists).places == mem.places
    ensures AllReady(spaces, mem, mem.kernel, lists) && Listed(spaces, lists) && Distinct(spaces)
  {
    OkIs(State(mem, lists), s.pml4);
  }

  lemma BesideOf(spaces: set<AddressSpace>, s: AddressSpace, mem: Memory, kernel: nat, lists: Lists)
    requires AllReady(spaces, mem, kernel, lists) && s in spaces
    ensures NodesOf(spaces).Keys == spaces
    ensures forall t :: t in spaces && t != s ==> Ready(t, mem, kernel, lists) && allocated(Nodes(t.tree.shape))
    ensures forall t :: t in spaces && t != s ==> NodesOf(spaces)[t] == Nodes(t.tree.shape)
    ensures forall t :: t in spaces && t != s ==> t.tree != s.tree && Nodes(s.tree.shape) !! NodesOf(spaces)[t]
    ensures forall t, u :: t in spaces && u in spaces && t != u ==> NodesOf(spaces)[t] !! NodesOf(spaces)[u]
    ensures Nodes(s.tree.shape) <= AllNodes(spaces)
    ensures forall t :: t in spaces ==> NodesOf(spaces)[t] <= AllNodes(spaces)
  {
  }

  // All nodes, once those of one address space have changed.
  lemma NodesNow(spaces: set<AddressSpace>, s: AddressSpace, nodes: map<AddressSpace, set<Node>>, before: set<object>)
    requires s in spaces && nodes.Keys == spaces
    requires forall t :: t in spaces && t != s ==> nodes[t] == Nodes(t.tree.shape)
    requires forall t :: t in spaces ==> nodes[t] <= before
    ensures AllNodes(spaces) <= before + Nodes(s.tree.shape)
  {
    hide Nodes;
  }

  lemma ReadyAgain(spaces: set<AddressSpace>, s: AddressSpace, mem: Memory, lists: Lists,
      nodes: map<AddressSpace, set<Node>>)
    requires s in spaces && nodes.Keys == spaces && Distinct(spaces)
    requires s.mem == mem && s.isKernel == (s.pml4 == mem.kernel) && s.Records()
    requires forall t :: t in spaces && t != s ==> Ready(t, mem, mem.kernel, lists) && nodes[t] == Nodes(t.tree.shape)
    requires forall t :: t in spaces && t != s ==> Nodes(s.tree.shape) !! nodes[t]
    requires forall t, u :: t in spaces && u in spaces && t != u ==> nodes[t] !! nodes[u]
    ensures AllReady(spaces, mem, mem.kernel, Updated(s, lists))
  {
    forall t | t in spaces && t != s
      ensures Ready(t, mem, mem.kernel, Updated(s, lists))
    {
    }
    hide Nodes;
  }

  lemma RunsOn(w: World, op: Op, mem: Memory, spaces: set<AddressSpace>, lists: Lists)
    requires WorldOk(w) && Step(w, op, State(mem, lists))
    requires AllReady(spaces, mem, mem.kernel, lists) && Listed(spaces, lists) && mem.Valid()
    ensures Became(w, op, mem, spaces, lists)
  {
    AgreesExactly(w, op, State(mem, lists));
    StepExactly(w, op, State(mem, lists));
    StepAgrees(w, op, State(mem, lists));
    hide WorldOk, Step, AllReady, Listed, Sound, Agree, Harmless, Outside, Built;
  }

  // Nobody can create or destroy a user in a way that is not sound.
  lemma BecameRunning(w: World, op: Op, mem: Memory, spaces: set<AddressSpace>, lists: Lists)
    requires Became(w, op, mem, spaces, lists) && (op.Create? || op.Destroy?)
    ensures Running(mem, spaces, lists) && Step(w, op, State(mem, lists))
  {
    hide Running, Step, WorldOk, Agree, Harmless;
  }

  lemma RecordsIn(s: AddressSpace)
    requires s.Valid()
    ensures s.Records() && s.mem.Valid()
  {
  }

  lemma RootIsKernel(mem: Memory, pml4: nat)
    requires mem.Valid() && IsRoot(mem, pml4, true)
    ensures pml4 == mem.kernel && pml4 in mem.frames && |mem.frames[pml4]| == TABLE_SIZE
  {
    KernelTable(mem.frames, mem.places, pml4);
  }

  lemma ListedAgain(spaces: set<AddressSpace>, lists: Lists, s: AddressSpace)
    requires Listed(spaces, lists) && s in spaces
    ensures Listed(spaces, Updated(s, lists))
  {
  }

  lemma AfterMap(w: World, mem: Memory, spaces: set<AddressSpace>, nodes: map<AddressSpace, set<Node>>,
      lists: Lists, s: AddressSpace, item: Item, phys: nat)
    requires s in spaces && nodes.Keys == spaces && Distinct(spaces) && Listed(spaces, lists)
    requires s.mem == mem && s.isKernel == (s.pml4 == mem.kernel) && mem.Valid()
    requires forall t :: t in spaces && t != s ==> Ready(t, mem, mem.kernel, lists) && nodes[t] == Nodes(t.tree.shape)
    requires forall t :: t in spaces && t != s ==> Nodes(s.tree.shape) !! nodes[t]
    requires forall t, u :: t in spaces && u in spaces && t != u ==> nodes[t] !! nodes[u]
    requires WorldOk(w) && w.kernel == mem.kernel && w.lists == lists && s.pml4 in lists
    requires s.IsMapped(w.frames, w.places, lists[s.pml4], item, phys)
    requires s.Valid() <==> InPart(s.isKernel, item.addr, item.length)
    ensures Became(w, Map(s.pml4, item, phys), mem, spaces, Updated(s, lists))
  {
    hide *;
    MapStep(w, mem, lists, s, item, phys);
    if InPart(s.isKernel, item.addr, item.length) {
      RecordsIn(s);
      ReadyAgain(spaces, s, mem, lists, nodes);
      ListedAgain(spaces, lists, s);
      RunsOn(w, Map(s.pml4, item, phys), mem, spaces, Updated(s, lists));
    } else {
      StrayStep(w, mem, spaces, lists, s, item, phys);
    }
  }

  lemma MapStep(w: World, mem: Memory, lists: Lists, s: AddressSpace, item: Item, phys: nat)
    requires WorldOk(w) && w.kernel == mem.kernel && w.lists == lists && s.mem == mem && mem.Valid()
    requires s.isKernel == (s.pml4 == mem.kernel) && s.pml4 in lists
    requires s.IsMapped(w.frames, w.places, lists[s.pml4], item, phys)
    requires InPart(s.isKernel, item.addr, item.length) ==> s.Valid()
    ensures Step(w, Map(s.pml4, item, phys), State(mem, Updated(s, lists)))
  {
    var maps := w.lists[s.pml4];
    if InPart(s.isKernel, item.addr, item.length) {
      assert MapsOk(maps[item := phys], Lo(s.isKernel), Hi(s.isKernel));
      hide *;
      MapsFresh(maps, s.isKernel, item, phys);
    }
    hide WorldOk, MapsOk, Evolves, RootsKept, Added, Strays, Fresh, Lo, Hi, Redundant, Translates;
  }

  // What lies apart from the others in the list was free.
  lemma MapsFresh(maps: map<Item, nat>, isKernel: bool, item: Item, phys: nat)
    requires item !in maps && MapsOk(maps[item := phys], Lo(isKernel), Hi(isKernel))
    ensures Fresh(maps, isKernel, item, phys)
  {
    var maps' := maps[item := phys];
    assert item in maps' && ItemOk(item, maps'[item], Lo(isKernel), Hi(isKernel));
    assert forall m :: m in maps ==> m in maps' && m != item;
    hide ItemOk, Lo, Hi;
  }

  lemma StrayStep(w: World, mem: Memory, spaces: set<AddressSpace>, lists: Lists, s: AddressSpace, item: Item,
      phys: nat)
    requires WorldOk(w) && Step(w, Map(s.pml4, item, phys), State(mem, Updated(s, lists)))
    requires w.kernel == mem.kernel && s.isKernel == (s.pml4 == mem.kernel)
    requires !InPart(s.isKernel, item.addr, item.length)
    ensures Became(w, Map(s.pml4, item, phys), mem, spaces, Updated(s, lists))
  {
    var op := Map(s.pml4, item, phys);
    assert !Sound(w, op);
    AgreesExactly(w, op, State(mem, Updated(s, lists)));
    StepExactly(w, op, State(mem, Updated(s, lists)));
    StepAgrees(w, op, State(mem, Updated(s, lists)));
    hide WorldOk, Step, Sound, Agree, Harmless, Outside, Built, Running, InPart;
  }

  lemma StateIs(mem: Memory, lists: Lists)
    ensures State(mem, lists) == World(mem.frames, mem.places, mem.kernel, lists)
  {
  }

  lemma AfterUnmap(w: World, mem: Memory, spaces: set<AddressSpace>, nodes: map<AddressSpace, set<Node>>,
      lists: Lists, s: AddressSpace, some: bool, virt: nat, m: Item)
    requires s in spaces && nodes.Keys == spaces && Distinct(spaces) && Listed(spaces, lists)
    requires s.mem == mem && s.isKernel == (s.pml4 == mem.kernel) && s.Records() && mem.Valid()
    requires forall t :: t in spaces && t != s ==> Ready(t, mem, mem.kernel, lists) && nodes[t] == Nodes(t.tree.shape)
    requires forall t :: t in spaces && t != s ==> Nodes(s.tree.shape) !! nodes[t]
    requires forall t, u :: t in spaces && u in spaces && t != u ==> nodes[t] !! nodes[u]
    requires WorldOk(w) && w.kernel == mem.kernel && w.lists == lists && w.places == mem.places && s.pml4 in lists
    requires !some ==> s.maps == lists[s.pml4] && mem.frames == w.frames
    requires some ==> IsFound(lists[s.pml4], virt, m.length, m) && s.maps == lists[s.pml4] - {m}
    requires some ==> mem.frames == UnmapOf(w.frames, s.pml4, m, virt).frames
    ensures !some ==> Running(mem, spaces, lists)
    ensures some ==> Became(w, Unmap(s.pml4, virt, m), mem, spaces, Updated(s, lists))
  {
    assert w == World(w.frames, mem.places, mem.kernel, lists);
    hide *;
    if some {
      UnmapDone(w.frames, mem, spaces, nodes, lists, s, virt, m);
    } else {
      SameAgain(w.frames, mem, spaces, nodes, lists, s);
    }
  }

  lemma UnmapDone(f0: Frames, mem: Memory, spaces: set<AddressSpace>, nodes: map<AddressSpace, set<Node>>,
      lists: Lists, s: AddressSpace, virt: nat, m: Item)
    requires s in spaces && nodes.Keys == spaces && Distinct(spaces) && Listed(spaces, lists)
    requires s.mem == mem && s.isKernel == (s.pml4 == mem.kernel) && s.Records() && mem.Valid()
    requires forall t :: t in spaces && t != s ==> Ready(t, mem, mem.kernel, lists) && nodes[t] == Nodes(t.tree.shape)
    requires forall t :: t in spaces && t != s ==> Nodes(s.tree.shape) !! nodes[t]
    requires forall t, u :: t in spaces && u in spaces && t != u ==> nodes[t] !! nodes[u]
    requires WorldOk(World(f0, mem.places, mem.kernel, lists))
    requires s.pml4 in lists && IsFound(lists[s.pml4], virt, m.length, m) && s.maps == lists[s.pml4] - {m}
    requires mem.frames == UnmapOf(f0, s.pml4, m, virt).frames
    ensures Became(World(f0, mem.places, mem.kernel, lists), Unmap(s.pml4, virt, m), mem, spaces, Updated(s, lists))
  {
    hide *;
    UnmapStep(f0, mem, lists, s, virt, m);
    ReadyAgain(spaces, s, mem, lists, nodes);
    ListedAgain(spaces, lists, s);
    RunsOn(World(f0, mem.places, mem.kernel, lists), Unmap(s.pml4, virt, m), mem, spaces, Updated(s, lists));
  }

  lemma UnmapStep(f0: Frames, mem: Memory, lists: Lists, s: AddressSpace, virt: nat, m: Item)
    requires s.pml4 in lists && IsFound(lists[s.pml4], virt, m.length, m) && s.maps == lists[s.pml4] - {m}
    requires mem.frames == UnmapOf(f0, s.pml4, m, virt).frames
    ensures Step(World(f0, mem.places, mem.kernel, lists), Unmap(s.pml4, virt, m), State(mem, Updated(s, lists)))
  {
    hide UnmapOf, IsFound;
  }

  lemma SameAgain(f0: Frames, mem: Memory, spaces: set<AddressSpace>, nodes: map<AddressSpace, set<Node>>,
      lists: Lists, s: AddressSpace)
    requires s in spaces && nodes.Keys == spaces && Distinct(spaces) && Listed(spaces, lists)
    requires s.mem == mem && s.isKernel == (s.pml4 == mem.kernel) && s.Records() && mem.Valid()
    requires forall t :: t in spaces && t != s ==> Ready(t, mem, mem.kernel, lists) && nodes[t] == Nodes(t.tree.shape)
    requires forall t :: t in spaces && t != s ==> Nodes(s.tree.shape) !! nodes[t]
    requires forall t, u :: t in spaces && u in spaces && t != u ==> nodes[t] !! nodes[u]
    requires WorldOk(World(f0, mem.places, mem.kernel, lists))
    requires s.pml4 in lists && s.maps == lists[s.pml4] && mem.frames == f0
    ensures Running(mem, spaces, lists)
  {
    hide *;
    UpdatedSame(s, lists);
    ReadyAgain(spaces, s, mem, lists, nodes);
    RunningFrom(mem, spaces, lists);
  }

  lemma UpdatedSame(s: AddressSpace, lists: Lists)
    requires s.pml4 in lists && s.maps == lists[s.pml4]
    ensures Updated(s, lists) == lists
  {
  }

  lemma RunningFrom(mem: Memory, spaces: set<AddressSpace>, lists: Lists)
    requires AllReady(spaces, mem, mem.kernel, lists) && Listed(spaces, lists) && mem.Valid()
    requires WorldOk(World(mem.frames, mem.places, mem.kernel, lists))
    ensures Running(mem, spaces, lists)
  {
    hide WorldOk, AllReady, Listed;
  }

  lemma NodesIs(spaces: set<AddressSpace>, mem: Memory, kernel: nat, lists: Lists)
    requires AllReady(spaces, mem, kernel, lists)
    ensures NodesOf(spaces).Keys == spaces
    ensures forall t :: t in spaces ==> Ready(t, mem, kernel, lists) && allocated(Nodes(t.tree.shape))
    ensures forall t :: t in spaces ==> NodesOf(spaces)[t] == Nodes(t.tree.shape)
    ensures forall t, u :: t in spaces && u in spaces && t != u ==> NodesOf(spaces)[t] !! NodesOf(spaces)[u]
    ensures forall t :: t in spaces ==> NodesOf(spaces)[t] <= AllNodes(spaces)
  {
  }

  // All nodes, with one space more or less.
  lemma NodesWithin(spaces: set<AddressSpace>, s: AddressSpace, nodes: map<AddressSpace, set<Node>>,
      before: set<object>)
    requires forall t :: t in spaces ==> t in nodes || (t == s && Nodes(s.tree.shape) == {})
    requires forall t :: t in nodes ==> nodes[t] == Nodes(t.tree.shape) && nodes[t] <= before
    ensures AllNodes(spaces) <= before
  {
    hide Nodes;
  }

  lemma CreateStep(f0: Frames, p0: map<nat, Place>, mem: Memory, lists: Lists, s: AddressSpace)
    requires WorldOk(World(f0, p0, mem.kernel, lists)) && s.maps == map[]
    requires s.pml4 !in p0 && mem.places == p0[s.pml4 := Place(4, 0, s.pml4)]
    requires mem.kernel in f0 && |f0[mem.kernel]| == TABLE_SIZE
    requires mem.frames == f0[s.pml4 := BornWith(f0[mem.kernel][KERNEL_PML4])]
    ensures Step(World(f0, p0, mem.kernel, lists), Create(s.pml4), State(mem, Updated(s, lists)))
    ensures s.pml4 !in lists && s.pml4 != mem.kernel
  {
    var w := World(f0, p0, mem.kernel, lists);
    OkIs(w, w.kernel);
    if s.pml4 in lists {
      OkIs(w, s.pml4);
    }
    hide WorldOk, BornWith, SpaceOk;
  }

  lemma Join(f0: Frames, p0: map<nat, Place>, mem: Memory, spaces: set<AddressSpace>,
      nodes: map<AddressSpace, set<Node>>, lists: Lists, s: AddressSpace, before: set<object>)
    requires s !in spaces && nodes.Keys == spaces && Distinct(spaces) && Listed(spaces, lists)
    requires forall t :: t in spaces ==> s.tree != t.tree && nodes[t] <= before
    requires s.mem == mem && !s.isKernel && s.Records() && s.maps == map[] && Nodes(s.tree.shape) == {}
    requires mem.Valid() && WorldOk(World(f0, p0, mem.kernel, lists))
    requires s.pml4 !in p0 && mem.places == p0[s.pml4 := Place(4, 0, s.pml4)]
    requires mem.kernel in f0 && |f0[mem.kernel]| == TABLE_SIZE
    requires mem.frames == f0[s.pml4 := BornWith(f0[mem.kernel][KERNEL_PML4])]
    requires forall t :: t in spaces ==> Ready(t, mem, mem.kernel, lists) && nodes[t] == Nodes(t.tree.shape)
    requires forall t, u :: t in spaces && u in spaces && t != u ==> nodes[t] !! nodes[u]
    ensures Step(World(f0, p0, mem.kernel, lists), Create(s.pml4), State(mem, Updated(s, lists)))
    ensures Running(mem, With(spaces, s), Updated(s, lists))
    ensures AllNodes(With(spaces, s)) <= before
  {
    assert With(spaces, s) == spaces + {s};
    hide *;
    NodesWithin(spaces + {s}, s, nodes, before);
    CreateStep(f0, p0, mem, lists, s);
    JoinReady(spaces, s, mem, lists, nodes);
    RunsOn(World(f0, p0, mem.kernel, lists), Create(s.pml4), mem, spaces + {s}, Updated(s, lists));
    BecameRunning(World(f0, p0, mem.kernel, lists), Create(s.pml4), mem, spaces + {s}, Updated(s, lists));
  }

  // A new one next to the others.
  lemma JoinReady(spaces: set<AddressSpace>, s: AddressSpace, mem: Memory, lists: Lists,
      nodes: map<AddressSpace, set<Node>>)
    requires s !in spaces && nodes.Keys == spaces && Distinct(spaces) && Listed(spaces, lists)
    requires forall t :: t in spaces ==> s.tree != t.tree
    requires s.mem == mem && s.isKernel == (s.pml4 == mem.kernel) && s.Records() && Nodes(s.tree.shape) == {}
    requires s.pml4 !in lists
    requires forall t :: t in spaces ==> Ready(t, mem, mem.kernel, lists) && nodes[t] == Nodes(t.tree.shape)
    requires forall t, u :: t in spaces && u in spaces && t != u ==> nodes[t] !! nodes[u]
    ensures AllReady(spaces + {s}, mem, mem.kernel, Updated(s, lists)) && Listed(spaces + {s}, Updated(s, lists))
  {
    hide *;
    forall t | t in spaces
      ensures Ready(t, mem, mem.kernel, Updated(s, lists)) && t.pml4 != s.pml4
    {
      ReadyBeside(t, s, mem, lists);
    }
    ReadyAlone(s, mem, lists);
    JoinDistinct(spaces, s, lists, nodes);
    AllReadyFrom(spaces + {s}, mem, mem.kernel, Updated(s, lists));
  }

  lemma ReadyBeside(t: AddressSpace, s: AddressSpace, mem: Memory, lists: Lists)
    requires Ready(t, mem, mem.kernel, lists) && s.pml4 !in lists
    ensures Ready(t, mem, mem.kernel, Updated(s, lists)) && t.pml4 != s.pml4
  {
  }

  lemma ReadyAlone(s: AddressSpace, mem: Memory, lists: Lists)
    requires s.mem == mem && s.isKernel == (s.pml4 == mem.kernel) && s.Records()
    ensures Ready(s, mem, mem.kernel, Updated(s, lists))
  {
  }

  lemma AllReadyFrom(spaces: set<AddressSpace>, mem: Memory, kernel: nat, lists: Lists)
    requires Distinct(spaces) && Separate(spaces) && forall s :: s in spaces ==> Ready(s, mem, kernel, lists)
    ensures AllReady(spaces, mem, kernel, lists)
  {
    hide Distinct, Separate, Ready;
  }

  lemma JoinDistinct(spaces: set<AddressSpace>, s: AddressSpace, lists: Lists, nodes: map<AddressSpace, set<Node>>)
    requires s !in spaces && nodes.Keys == spaces && Distinct(spaces) && Listed(spaces, lists)
    requires forall t :: t in spaces ==> s.tree != t.tree && s.pml4 != t.pml4 && nodes[t] == Nodes(t.tree.shape)
    requires forall t, u :: t in spaces && u in spaces && t != u ==> nodes[t] !! nodes[u]
    requires Nodes(s.tree.shape) == {}
    ensures Distinct(spaces + {s}) && Separate(spaces + {s}) && Listed(spaces + {s}, Updated(s, lists))
  {
    hide Nodes;
    forall r | r in Updated(s, lists)
      ensures exists t :: t in spaces + {s} && t.pml4 == r
    {
      if r == s.pml4 {
        assert s in spaces + {s};
      } else {
        var t :| t in spaces && t.pml4 == r;
        assert t in spaces + {s};
      }
    }
  }

  lemma CloseStep(w: World, mem: Memory, lists: Lists, s: AddressSpace)
    requires w.kernel == mem.kernel && w.lists == lists && s.pml4 in lists && s.pml4 != w.kernel && WorldOk(w)
    requires mem.Valid() && mem.places == WithoutOwner(w.places, s.pml4)
    requires KeepsOthers(w.frames, w.places, mem.frames, s.pml4)
    ensures Step(w, Destroy(s.pml4), State(mem, lists - {s.pml4}))
  {
    SlotSame(w, s.pml4);
    hide WithoutOwner, KeepsOthers, Placed, WorldOk, SameSlot;
  }

  // The others without one.
  lemma LeaveReady(spaces: set<AddressSpace>, s: AddressSpace, mem: Memory, lists: Lists,
      nodes: map<AddressSpace, set<Node>>)
    requires s in spaces && nodes.Keys == spaces && Distinct(spaces) && Listed(spaces, lists)
    requires forall t :: t in spaces ==> Ready(t, mem, mem.kernel, lists) && nodes[t] == Nodes(t.tree.shape)
    requires forall t, u :: t in spaces && u in spaces && t != u ==> nodes[t] !! nodes[u]
    ensures AllReady(spaces - {s}, mem, mem.kernel, lists - {s.pml4}) && Listed(spaces - {s}, lists - {s.pml4})
  {
    forall t | t in spaces - {s}
      ensures Ready(t, mem, mem.kernel, lists - {s.pml4})
    {
    }
    assert Distinct(spaces - {s});
    assert Separate(spaces - {s}) by { hide Nodes; }
    hide Distinct, Separate, Nodes;
    LeaveListed(spaces, s, lists);
  }

  lemma LeaveListed(spaces: set<AddressSpace>, s: AddressSpace, lists: Lists)
    requires Listed(spaces, lists)
    ensures Listed(spaces - {s}, lists - {s.pml4})
  {
    forall r | r in lists - {s.pml4}
      ensures exists t :: t in spaces - {s} && t.pml4 == r
    {
      var t :| t in spaces && t.pml4 == r;
      assert t in spaces - {s};
    }
  }
}
