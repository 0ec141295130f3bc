/** The kernel's address space and any number of users', over whole runs. */
module Spaces {
  import opened Options
  import opened MemoryTypes
  import opened PageRuns
  import opened PageTables
  import opened PageWalks
  import opened Translation
  import opened Evolution
  import opened Mapping
  import opened Rights
  import opened Unmapping

  // The tables of everyone, and the list of mappings of each address space by its top-level table.
  datatype World = World(frames: Frames, places: map<nat, Place>, kernel: nat, lists: map<nat, map<Item, nat>>)

  ghost predicate SpaceOk(w: World, r: nat)
    requires r in w.lists
  {
    && r in w.places && w.places[r] == Place(4, 0, r)
    && TablesOk(w.frames, w.places, w.kernel, r, r == w.kernel, w.lists[r])
    && MapsOk(w.lists[r], Lo(r == w.kernel), Hi(r == w.kernel))
  }

  // Every list agrees with the tables, and every user has the kernel's top entry.
  ghost predicate WorldOk(w: World) {
    && Placed(w.frames, w.places, w.kernel) && w.kernel in w.lists
    && forall r :: r in w.lists ==> SpaceOk(w, r)
  }

  // What can happen: an operation of one address space, with what it came to.
  datatype Op =
    | Create(user: nat)
    | Map(space: nat, item: Item, phys: nat)
    | Unmap(space: nat, virt: nat, m: Item)
    | Destroy(user: nat)

  ghost predicate Created(w: World, user: nat, w': World) {
    && user !in w.places && w.kernel in w.frames && |w.frames[w.kernel]| == TABLE_SIZE
    && w'.frames == w.frames[user := BornWith(w.frames[w.kernel][KERNEL_PML4])]
    && w'.places == w.places[user := Place(4, 0, user)]
    && w'.lists == w.lists[user := map[]]
  }

  ghost predicate Mapped(w: World, space: nat, item: Item, phys: nat, w': World) {
    var isKernel := space == w.kernel;
    && space in w.lists && item !in w.lists[space]
    && item.addr % PageBytes(item.kind) == 0 && item.length % PageBytes(item.kind) == 0
    && (InPart(isKernel, item.addr, item.length) ==> Fresh(w.lists[space], isKernel, item, phys))
    && RootsKept(w.frames, w.places, w'.frames, w'.places, w.kernel)
    && Added(w.frames, w.places, w'.frames, w.kernel, space, item, phys, PageCount(item))
    && (isKernel || !Strays(item, PageCount(item)) ==>
         Evolves(w.frames, w.places, w'.frames, w'.places, space, isKernel))
    && var more: map<Item, nat> := w.lists[space][item := phys];
       w'.lists == w.lists[space := more]
  }

  ghost predicate Unmapped(w: World, space: nat, virt: nat, m: Item, w': World) {
    && space in w.lists && IsFound(w.lists[space], virt, m.length, m)
    && w'.frames == UnmapOf(w.frames, space, m, virt).frames && w'.places == w.places
    && w'.lists == w.lists[space := w.lists[space] - {m}]
  }

  ghost predicate Destroyed(w: World, user: nat, w': World) {
    && user in w.lists && user != w.kernel && SameSlot(w.frames, user, w.kernel)
    && Placed(w'.frames, w'.places, w.kernel)
    && KeepsOthers(w.frames, w.places, w'.frames, user) && w'.places == WithoutOwner(w.places, user)
    && w'.lists == w.lists - {user}
  }

  ghost predicate Step(w: World, op: Op, w': World) {
    w'.kernel == w.kernel &&
    match op
    case Create(user) => Created(w, user, w')
    case Map(space, item, phys) => Mapped(w, space, item, phys, w')
    case Unmap(space, virt, m) => Unmapped(w, space, virt, m, w')
    case Destroy(user) => Destroyed(w, user, w')
  }

  // The kernel has mapped something: its top entry is there to be copied.
  ghost predicate KernelMapped(w: World) {
    w.kernel in w.frames && |w.frames[w.kernel]| == TABLE_SIZE && w.frames[w.kernel][KERNEL_PML4].Present?
  }

  // What the callers must see to: that the kernel maps something before the first user is born,
  // that what is mapped stays in the space's own part, and that a mapping is unmapped from its
  // first page on.
  ghost predicate Sound(w: World, op: Op) {
    match op
    case Create(user) => true
    case Map(space, item, phys) =>
      InPart(space == w.kernel, item.addr, item.length)
      && (space == w.kernel && !KernelMapped(w) ==> NoUsers(w))
    case Unmap(space, virt, m) => FromStart(m, virt)
    case Destroy(user) => true
  }

  ghost predicate NoUsers(w: World) {
    forall r :: r in w.lists ==> r == w.kernel
  }

  // ----- one step -----

  lemma OkIs(w: World, r: nat)
    requires WorldOk(w) && r in w.lists
    ensures SpaceOk(w, r) && SpaceOk(w, w.kernel) && w.kernel in w.lists
    ensures Placed(w.frames, w.places, w.kernel)
    ensures r in w.places && w.places[r] == Place(4, 0, r)
    ensures w.kernel in w.places && w.places[w.kernel] == Place(4, 0, w.kernel)
    ensures w.kernel in w.frames && |w.frames[w.kernel]| == TABLE_SIZE
    ensures TablesOk(w.frames, w.places, w.kernel, r, r == w.kernel, w.lists[r])
    ensures TablesOk(w.frames, w.places, w.kernel, w.kernel, true, w.lists[w.kernel])
    ensures MapsOk(w.lists[r], Lo(r == w.kernel), Hi(r == w.kernel))
    ensures MapsOk(w.lists[w.kernel], Lo(true), Hi(true))
  {
    KernelTable(w.frames, w.places, w.kernel);
    hide Placed, TablesOk, MapsOk;
  }

  // What another address space does leaves this one good, but for the kernel's first mapping.
  lemma OtherOk(w: World, w': World, actor: nat, r: nat)
    requires WorldOk(w) && r in w.lists && actor != r && w'.kernel == w.kernel
    requires Evolves(w.frames, w.places, w'.frames, w'.places, actor, actor == w.kernel)
    requires r in w'.lists && w'.lists[r] == w.lists[r] && (actor == w.kernel ==> KernelMapped(w))
    ensures SpaceOk(w', r)
  {
    OkIs(w, r);
    assert r in w'.places && w'.places[r] == w.places[r];
    assert r != w.kernel ==> SameSlot(w.frames, r, w.kernel);
    assert actor == w.kernel ==> SharesKernel(w.frames, r, w.kernel);
    hide *;
    OthersUndisturbed(w.frames, w.places, w'.frames, w'.places, w.kernel, actor, actor == w.kernel,
      r, r == w.kernel, w.lists[r]);
    SpaceIs(w', r);
  }

  lemma SpaceIs(w: World, r: nat)
    requires r in w.lists && r in w.places && w.places[r] == Place(4, 0, r)
    requires MapsOk(w.lists[r], Lo(r == w.kernel), Hi(r == w.kernel))
    ensures SpaceOk(w, r) <==> TablesOk(w.frames, w.places, w.kernel, r, r == w.kernel, w.lists[r])
  {
    hide TablesOk, MapsOk;
  }

  lemma CreatedOk(w: World, user: nat, w': World)
    requires WorldOk(w) && w'.kernel == w.kernel && Created(w, user, w')
    ensures WorldOk(w')
  {
    OkIs(w, w.kernel);
    Birth(w.frames, w.places, w.kernel, user);
    BirthEvolves(w.frames, w.places, w.kernel, user);
    assert user !in w.lists by { if user in w.lists { OkIs(w, user); } }
    forall r | r in w.lists
      ensures SpaceOk(w', r)
    {
      hide *;
      OtherOk(w, w', user, r);
    }
    SpaceIs(w', user);
    hide Placed, TablesOk, SpaceOk;
  }

  lemma BirthEvolves(frames: Frames, places: map<nat, Place>, kernel: nat, user: nat)
    requires Placed(frames, places, kernel) && kernel in places && user !in places
    requires kernel in frames && |frames[kernel]| == TABLE_SIZE
    ensures Evolves(frames, places, frames[user := BornWith(frames[kernel][KERNEL_PML4])],
      places[user := Place(4, 0, user)], user, false)
  {
    forall t | t in places
      ensures t in frames && |frames[t]| == TABLE_SIZE
    {
      assert TableOk(frames, places, kernel, t);
    }
    hide Placed;
  }

  lemma MappedExactly(w: World, space: nat, item: Item, phys: nat, w': World)
    requires WorldOk(w) && w'.kernel == w.kernel && Mapped(w, space, item, phys, w')
    ensures WorldOk(w') <==> Sound(w, Map(space, item, phys))
  {
    assert item in w'.lists[space] && space in w'.lists && w'.lists.Keys == w.lists.Keys;
    if Sound(w, Map(space, item, phys)) {
      hide WorldOk, Mapped, Sound;
      MappedOk(w, space, item, phys, w');
    } else if WorldOk(w') {
      OkIs(w', space);
      hide WorldOk, TablesOk, MapsOk;
      InList(w'.lists[space], space == w.kernel, item);
      var r :| r in w.lists && r != w.kernel;
      EarlyUser(w, item, phys, w', r);
    }
  }

  lemma InList(maps: map<Item, nat>, isKernel: bool, item: Item)
    requires MapsOk(maps, Lo(isKernel), Hi(isKernel)) && item in maps
    ensures InPart(isKernel, item.addr, item.length)
  {
    assert ItemOk(item, maps[item], Lo(isKernel), Hi(isKernel));
  }

  // Once the kernel has mapped something, who was born before lacks its top entry.
  lemma EarlyUser(w: World, item: Item, phys: nat, w': World, r: nat)
    requires WorldOk(w) && w'.kernel == w.kernel && Mapped(w, w.kernel, item, phys, w')
    requires InPart(true, item.addr, item.length) && !KernelMapped(w) && r in w.lists && r != w.kernel
    ensures !WorldOk(w')
  {
    OkIs(w, r);
    MappedDef(w, w.kernel, item, phys, w');
    assert !SharesKernel(w.frames, r, w.kernel) && r in w'.lists && w'.lists[r] == w.lists[r];
    hide *;
    IsRooted(w.frames, w.places, w.kernel, r, false, w.lists[r]);
    RootsKeptAt(w.frames, w.places, w'.frames, w'.places, w.kernel, r);
    NotShared(w.frames, w'.frames, w.kernel, r);
    if WorldOk(w') {
      OkIs(w', w.kernel);
      OkIs(w', r);
      MappedHit(w', item);
      SlotSame(w', r);
      TopShared(w'.frames, r, w.kernel, item.addr);
    }
  }

  lemma NotShared(f: Frames, f': Frames, kernel: nat, r: nat)
    requires r != kernel && !SharesKernel(f, r, kernel) && (Shares(f', r, kernel) <==> Shares(f, r, kernel))
    ensures !SharesKernel(f', r, kernel)
  {
    hide SharesKernel;
  }

  lemma SlotSame(w: World, r: nat)
    requires WorldOk(w) && r in w.lists && r != w.kernel
    ensures SameSlot(w.frames, r, w.kernel)
  {
    OkIs(w, r);
    hide WorldOk, SameSlot;
  }

  // What the kernel has mapped is there.
  lemma MappedHit(w: World, item: Item)
    requires WorldOk(w) && w.kernel in w.lists && item in w.lists[w.kernel]
    ensures Index(4, item.addr) == KERNEL_PML4 && Walk(w.frames, w.kernel, 4, item.addr).Some?
  {
    OkIs(w, w.kernel);
    assert ItemOk(item, w.lists[w.kernel][item], Lo(true), Hi(true));
    assert item.Covers(item.addr);
    hide WorldOk, Walk;
    CoveredHit(w.frames, w.kernel, true, w.lists[w.kernel], item, item.addr);
  }

  lemma MappedOk(w: World, space: nat, item: Item, phys: nat, w': World)
    requires WorldOk(w) && w'.kernel == w.kernel && Mapped(w, space, item, phys, w')
    requires Sound(w, Map(space, item, phys))
    ensures WorldOk(w')
  {
    OkIs(w, space);
    MappedDef(w, space, item, phys, w');
    assert InPart(space == w.kernel, item.addr, item.length);
    assert space == w.kernel && !KernelMapped(w) ==> NoUsers(w);
    hide WorldOk, SpaceOk, TablesOk, MapsOk, Mapped, Evolves, Extended, Fresh, Placed, KernelMapped, Sound;
    forall r | r in w'.lists
      ensures SpaceOk(w', r)
    {
      if r == space {
        MappedAll(w.frames, w.places, w'.frames, w'.places, space, w.kernel, space == w.kernel,
          w.lists[space], item, phys);
        MapsMore(w.lists[space], space == w.kernel, item, phys);
        SpaceIs(w', r);
      } else {
        OtherOk(w, w', space, r);
      }
    }
    AllOk(w');
  }

  lemma MappedDef(w: World, space: nat, item: Item, phys: nat, w': World)
    requires WorldOk(w) && w'.kernel == w.kernel && Mapped(w, space, item, phys, w')
    requires InPart(space == w.kernel, item.addr, item.length)
    ensures space in w.lists && Fresh(w.lists[space], space == w.kernel, item, phys)
    ensures RootsKept(w.frames, w.places, w'.frames, w'.places, w.kernel)
    ensures Placed(w'.frames, w'.places, w'.kernel) && w'.kernel in w'.lists && space in w'.lists
    ensures w'.lists[space] == w.lists[space][item := phys] && item in w'.lists[space]
    ensures forall r :: r in w'.lists && r != space ==> r in w.lists && w'.lists[r] == w.lists[r]
    ensures forall r :: r in w.lists && r != space ==> r in w'.lists && w'.lists[r] == w.lists[r]
    ensures Evolves(w.frames, w.places, w'.frames, w'.places, space, space == w.kernel)
    ensures Extended(w.frames, w'.frames, space, space == w.kernel, item, phys, item.addr + item.length)
    ensures space in w.places ==> space in w'.places && w'.places[space] == w.places[space]
  {
    var isKernel := space == w.kernel;
    assert ItemOk(item, phys, Lo(isKernel), Hi(isKernel));
    OkIs(w, space);
    IsRooted(w.frames, w.places, w.kernel, space, isKernel, w.lists[space]);
    hide Strays, Fresh, Added, Extended, ItemOk, Placed, Lo, Hi, WorldOk, SpaceOk, TableKept, PageCount, Rooted,
      RootsKept, TablesOk, MapsOk;
    RootsKeptAt(w.frames, w.places, w'.frames, w'.places, w.kernel, space);
    RootedIs(w'.frames, w'.places, w.kernel, space);
    if !isKernel {
      OwnStays(item, phys, PageCount(item));
    }
    ExtendedFrom(w.frames, w.places, w'.frames, w.kernel, space, isKernel, item, phys);
  }

  lemma UnmappedExactly(w: World, space: nat, virt: nat, m: Item, w': World)
    requires WorldOk(w) && w'.kernel == w.kernel && Unmapped(w, space, virt, m, w')
    ensures WorldOk(w') <==> FromStart(m, virt)
  {
    OkIs(w, space);
    var maps, isKernel := w.lists[space], space == w.kernel;
    assert w'.lists[space] == maps - {m} && m in maps;
    hide *;
    UnmapTables(w.frames, w.places, w.kernel, space, isKernel, maps, m, virt);
    MapsLess(maps, isKernel, m);
    UnmappedIs(w, space, virt, m, w');
    SpaceIs(w', space);
    if FromStart(m, virt) {
      forall r | r in w'.lists
        ensures SpaceOk(w', r)
      {
        if r != space {
          UnmappedOther(w, space, virt, m, w', r);
        }
      }
      AllOk(w');
    } else {
      NotOk(w', space);
    }
  }

  lemma AllOk(w: World)
    requires Placed(w.frames, w.places, w.kernel) && w.kernel in w.lists
    requires forall r :: r in w.lists ==> SpaceOk(w, r)
    ensures WorldOk(w)
  {
    hide Placed, SpaceOk;
  }

  lemma NotOk(w: World, r: nat)
    requires r in w.lists && !SpaceOk(w, r)
    ensures !WorldOk(w)
  {
    hide Placed, SpaceOk;
  }

  lemma UnmappedIs(w: World, space: nat, virt: nat, m: Item, w': World)
    requires WorldOk(w) && w'.kernel == w.kernel && Unmapped(w, space, virt, m, w')
    ensures space in w'.lists && w'.kernel in w'.lists && w'.places == w.places
    ensures Rooted(w.frames, w.places, w.kernel, space)
    ensures Placed(w'.frames, w'.places, w'.kernel)
    ensures w'.frames == UnmapOf(w.frames, space, m, virt).frames
  {
    hide *;
    UnmappedDef(w, space, virt, m, w');
    OkIs(w, space);
    IsRooted(w.frames, w.places, w.kernel, space, space == w.kernel, w.lists[space]);
    RunKeepsRoots(w.frames, w.places, w.kernel, space, PageLevel(m.kind), virt, m.length / PageBytes(m.kind));
    RootsKeptAt(w.frames, w.places, w'.frames, w.places, w.kernel, space);
    RootedIs(w'.frames, w.places, w.kernel, space);
  }

  lemma UnmappedDef(w: World, space: nat, virt: nat, m: Item, w': World)
    requires w'.kernel == w.kernel && Unmapped(w, space, virt, m, w')
    ensures space in w.lists && space in w'.lists && (w.kernel in w.lists ==> w.kernel in w'.lists)
    ensures w'.places == w.places && w'.frames == UnmapOf(w.frames, space, m, virt).frames
    ensures w'.frames == UnmapRun(w.frames, space, PageLevel(m.kind), virt, m.length / PageBytes(m.kind)).frames
  {
    hide UnmapRun, IsFound;
  }

  // Unmapping the pages of a mapping leaves the others good.
  lemma UnmappedOther(w: World, space: nat, virt: nat, m: Item, w': World, r: nat)
    requires WorldOk(w) && w'.kernel == w.kernel && Unmapped(w, space, virt, m, w')
    requires FromStart(m, virt) && r in w.lists && r != space
    ensures r in w'.lists && SpaceOk(w', r)
  {
    OkIs(w, r);
    OkIs(w, space);
    UnmappedIs(w, space, virt, m, w');
    var level, n := PageLevel(m.kind), m.length / PageBytes(m.kind);
    assert w'.lists[r] == w.lists[r] && m in w.lists[space];
    assert w'.frames == UnmapRun(w.frames, space, level, virt, n).frames;
    hide *;
    if r == w.kernel {
      OwnPagesOnly(w.lists[space], m, virt, w.lists[r], UnmapRun(w.frames, space, level, virt, n).done);
      RunShort(w.frames, space, level, virt, n);
      RunKeepsKernelExactly(w.frames, w.places, w.kernel, space, level, virt, n, w.lists[r]);
    } else {
      RunKeepsUsers(w.frames, w.places, w.kernel, space, level, virt, n, r, w.lists[r]);
    }
    SpaceIs(w', r);
  }

  // The pages of a user's mapping are no kernel pages.
  lemma OwnPagesOnly(maps: map<Item, nat>, m: Item, virt: nat, kernels: map<Item, nat>, done: nat)
    requires MapsOk(maps, Lo(false), Hi(false)) && m in maps && FromStart(m, virt)
    requires MapsOk(kernels, Lo(true), Hi(true))
    ensures done <= m.length / PageBytes(m.kind) ==> !Meets(PageLevel(m.kind), virt, done, kernels)
  {
    var level, n := PageLevel(m.kind), m.length / PageBytes(m.kind);
    assert ItemOk(m, maps[m], Lo(false), Hi(false));
    assert m.addr % SPAN5 == m.addr && n * Span(level) == m.length;
    hide *;
    UserEndsBelow(m.addr, m.length);
    BelowTopSlot(level, m.addr, n, kernels);
    SameMeets(level, virt, m.addr, done, n, kernels);
  }

  lemma UserEndsBelow(addr: nat, length: nat)
    requires addr + length <= HALF
    ensures addr + length <= KERNEL_PML4 * Span(4)
  {
  }

  lemma SameMeets(level: nat, v: nat, v': nat, done: nat, n: nat, kernels: map<Item, nat>)
    requires 1 <= level <= 3 && Page(level, v) == Page(level, v') && !Meets(level, v', n, kernels)
    ensures done <= n ==> !Meets(level, v, done, kernels)
  {
    forall m, x | m in kernels && m.Covers(x)
      ensures Ahead(level, v, x) == Ahead(level, v', x)
    {
      AheadSame(level, v, v', x);
    }
    hide Ahead, Page;
  }

  lemma DestroyedOk(w: World, user: nat, w': World)
    requires WorldOk(w) && w'.kernel == w.kernel && Destroyed(w, user, w')
    ensures WorldOk(w')
  {
    forall r | r in w'.lists
      ensures SpaceOk(w', r)
    {
      OkIs(w, r);
      assert r != user && w'.lists[r] == w.lists[r] && r in w'.places && w'.places[r] == w.places[r];
      assert w.kernel in w'.places && w'.places[w.kernel] == w.places[w.kernel];
      hide *;
      OthersStay(w.frames, w.places, w'.frames, w'.places, w.kernel, user, r, w.lists[r]);
      SpaceIs(w', r);
    }
  }

  lemma OthersStay(f: Frames, p: map<nat, Place>, f': Frames, p': map<nat, Place>, kernel: nat, user: nat, r: nat,
      maps: map<Item, nat>)
    requires Placed(f, p, kernel) && KeepsOthers(f, p, f', user) && user != kernel && r != user
    requires r in p && p[r] == Place(4, 0, r) && kernel in p && p[kernel] == Place(4, 0, kernel)
    requires kernel in p' && p'[kernel] == p[kernel]
    requires TablesOk(f, p, kernel, r, r == kernel, maps)
    ensures TablesOk(f', p', kernel, r, r == kernel, maps)
  {
    forall v: nat | OwnAddress(r == kernel, v)
      ensures Translated(f', r, maps, v)
    {
      RootServes(p, f, kernel, r, v);
      OthersKeepWalk(f, p, f', kernel, user, r, 4, v);
      assert Translated(f, r, maps, v);
    }
    assert p[r].owner == r && p[kernel].owner == kernel;
    hide Placed, Translated, Walk;
  }

  /** One step of a good world leads to a good world exactly when it is sound. */
  lemma StepExactly(w: World, op: Op, w': World)
    requires WorldOk(w) && Step(w, op, w')
    ensures WorldOk(w') <==> Sound(w, op)
  {
    OkIs(w, w.kernel);
    hide WorldOk, Created, Mapped, Unmapped, Destroyed;
    match op
    case Create(user) => CreatedOk(w, user, w');
    case Map(space, item, phys) => MappedExactly(w, space, item, phys, w');
    case Unmap(space, virt, m) => UnmappedExactly(w, space, virt, m, w');
    case Destroy(user) => DestroyedOk(w, user, w');
  }

  // ----- whole runs -----

  ghost predicate History(ws: seq<World>, ops: seq<Op>) {
    |ws| == |ops| + 1 && forall i :: 0 <= i < |ops| ==> Step(ws[i], ops[i], ws[i + 1])
  }

  /** In every run from a good world, with any number of users: all worlds are good up to a
      point exactly when all steps up to it are sound. */
  lemma {:induction false} RunExactly(ws: seq<World>, ops: seq<Op>, k: nat)
    requires History(ws, ops) && WorldOk(ws[0]) && k <= |ops|
    ensures (forall i :: 0 <= i <= k ==> WorldOk(ws[i])) <==> (forall i :: 0 <= i < k ==> Sound(ws[i], ops[i]))
    decreases k
  {
    hide WorldOk, Step, Sound;
    if k > 0 {
      RunExactly(ws, ops, k - 1);
      assert Step(ws[k - 1], ops[k - 1], ws[k]);
      if WorldOk(ws[k - 1]) {
        StepExactly(ws[k - 1], ops[k - 1], ws[k]);
      }
    }
  }

  /** So after any sound run every address space translates every canonical address by its
      own mappings and the kernel's together, and by nothing else. */
  lemma EveryAddressInRuns(ws: seq<World>, ops: seq<Op>, k: nat, r: nat, v: nat)
    requires History(ws, ops) && WorldOk(ws[0]) && k <= |ops|
    requires forall i :: 0 <= i < k ==> Sound(ws[i], ops[i])
    requires r in ws[k].lists && Canonical(v)
    ensures WorldOk(ws[k]) && ws[k].kernel in ws[k].lists
    ensures Translated(ws[k].frames, r, ws[k].lists[r] + ws[k].lists[ws[k].kernel], v)
  {
    RunExactly(ws, ops, k);
    assert WorldOk(ws[k]);
    hide WorldOk, Step, Sound, SpaceOk;
    EveryAddressOf(ws[k], r, v);
  }

  /** And it permits exactly what the mapping's type does: every entry that the walk meets allows
      writing if and only if the type does, and so for users and for execution, and the final one
      disables caching if and only if the type does. */
  lemma RightsInRuns(ws: seq<World>, ops: seq<Op>, k: nat, r: nat, m: Item, v: nat)
    requires History(ws, ops) && WorldOk(ws[0]) && k <= |ops|
    requires forall i :: 0 <= i < k ==> Sound(ws[i], ops[i])
    requires r in ws[k].lists && Canonical(v) && m.Covers(v)
    requires m in ws[k].lists[r] || (ws[k].kernel in ws[k].lists && m in ws[k].lists[ws[k].kernel])
    ensures Allows(ws[k].frames, r, m.kind, v)
  {
    var w := ws[k];
    hide *;
    EveryAddressInRuns(ws, ops, k, r, v);
    TranslatedAllows(w.frames, r, w.lists[r] + w.lists[w.kernel], m, v);
  }

  lemma EveryAddressOf(w: World, r: nat, v: nat)
    requires WorldOk(w) && r in w.lists && Canonical(v)
    ensures w.kernel in w.lists && Translated(w.frames, r, w.lists[r] + w.lists[w.kernel], v)
  {
    OkIs(w, r);
    if r == w.kernel {
      assert w.lists[r] + w.lists[w.kernel] == w.lists[r];
    } else {
      EveryAddress(w.frames, w.places, w.kernel, r, w.lists[r], w.lists[w.kernel], v);
    }
  }

  /** A user's tables translate every canonical address by the user's mappings and the
      kernel's together. */
  lemma EveryAddress(frames: Frames, places: map<nat, Place>, kernel: nat, user: nat,
      own: map<Item, nat>, kernels: map<Item, nat>, v: nat)
    requires TablesOk(frames, places, kernel, user, false, own) && MapsOk(own, Lo(false), Hi(false))
    requires TablesOk(frames, places, kernel, kernel, true, kernels) && MapsOk(kernels, Lo(true), Hi(true))
    requires Canonical(v)
    ensures Translated(frames, user, own + kernels, v)
  {
    if Index(4, v) == KERNEL_PML4 {
      TopIsKernels(v);
      assert Walk(frames, user, 4, v) == Walk(frames, kernel, 4, v);
      assert Translated(frames, kernel, kernels, v);
      hide Walk;
      assert forall m :: m in own ==> ItemOk(m, own[m], Lo(false), Hi(false));
      TranslatedByOne(frames, kernel, kernels, own + kernels, v);
      hide *;
      SameWalk(frames, user, kernel, own + kernels, v);
    } else {
      TopIsKernels(v);
      hide Walk;
      assert Translated(frames, user, own, v);
      assert forall m :: m in kernels ==> ItemOk(m, kernels[m], Lo(true), Hi(true));
      hide HitOf, Canonical, Index, Lo, Hi;
      TranslatedByOne(frames, user, own, own + kernels, v);
    }
  }

  lemma SameWalk(frames: Frames, root: nat, root': nat, maps: map<Item, nat>, v: nat)
    requires Walk(frames, root, 4, v) == Walk(frames, root', 4, v) && Translated(frames, root', maps, v)
    ensures Translated(frames, root, maps, v)
  {
    hide Walk;
  }

  lemma TopIsKernels(v: nat)
    requires Canonical(v)
    ensures Index(4, v) == KERNEL_PML4 ==> Lo(true) <= v
    ensures Index(4, v) != KERNEL_PML4 ==> v < Lo(true)
  {
  }

  // Mappings that do not cover an address have no say in its translation.
  lemma TranslatedByOne(frames: Frames, root: nat, maps: map<Item, nat>, all: map<Item, nat>, v: nat)
    requires Translated(frames, root, maps, v)
    requires forall m :: m in maps ==> m in all
    requires forall m :: m in all && m.Covers(v) ==> m in maps && maps[m] == all[m]
    ensures Translated(frames, root, all, v)
  {
    hide Walk;
    if Covered(maps, v) {
      var m :| m in maps && m.Covers(v);
      assert m in all;
    }
  }
}
