/** When the tables of all address spaces translate every canonical address as the lists say,
    whatever the lists are and wherever their mappings lie. */
module Agreement {
  import opened Options
  import opened MemoryTypes
  import opened PageRuns
  import opened PageTables
  import opened PageWalks
  import opened Translation
  import opened Evolution
  import opened Mapping
  import opened Rights
  import opened Unmapping
  import opened Spaces

  // An address space has its own mappings and the kernel's.
  function Both(lists: map<nat, map<Item, nat>>, kernel: nat, r: nat): map<Item, nat>
    requires r in lists && kernel in lists
  {
    lists[r] + lists[kernel]
  }

  // Every address space there is has a top-level table in its place.
  ghost predicate Built(w: World) {
    w.kernel in w.lists && forall r :: r in w.lists ==> Rooted(w.frames, w.places, w.kernel, r)
  }

  /** Every address space translates every canonical address by its own mappings and the
      kernel's, and by nothing else. */
  ghost predicate Agree(w: World) {
    && w.kernel in w.lists
    && forall r, v: nat :: r in w.lists && Canonical(v) ==>
        Translated(w.frames, r, Both(w.lists, w.kernel, r), v)
  }

  // ----- what a step must not do, by the lists -----

  // Two lists say the same of an address.
  ghost predicate SaysSame(before: map<Item, nat>, after: map<Item, nat>, v: nat) {
    forall h :: Says(before, v, h) ==> Says(after, v, h)
  }

  // With one mapping more: who sees a page that is written at the place of `v` has lists that say
  // what the last of them says; all others' lists say what they said.
  ghost predicate MapSaid(w: World, space: nat, item: Item, phys: nat, r: nat, v: nat)
    requires space in w.lists && r in w.lists && w.kernel in w.lists
  {
    var level, n := PageLevel(item.kind), PageCount(item);
    var a := Ahead(level, item.addr, v);
    var more: map<Item, nat> := w.lists[space][item := phys];
    var after := Both(w.lists[space := more], w.kernel, r);
    if a < n && Seen(w.frames, w.kernel, space, r, v)
    then Says(after, v, Some(PageHit(item, phys, LastTurn(level, a, n), v)))
    else SaysSame(Both(w.lists, w.kernel, r), after, v)
  }

  // With one mapping less: who sees a page that is cleared has lists that say nothing of it any
  // more; all others' lists say what they said.
  ghost predicate UnmapSaid(w: World, space: nat, virt: nat, m: Item, r: nat, v: nat)
    requires space in w.lists && r in w.lists && w.kernel in w.lists
  {
    var after := Both(w.lists[space := w.lists[space] - {m}], w.kernel, r);
    if Ahead(PageLevel(m.kind), virt, v) < UnmapOf(w.frames, space, m, virt).done
       && Seen(w.frames, w.kernel, space, r, v)
    then Says(after, v, None)
    else SaysSame(Both(w.lists, w.kernel, r), after, v)
  }

  // A new user has nothing but the kernel's top slot, so the kernel must have nothing elsewhere.
  ghost predicate CreateSaid(w: World, v: nat)
    requires w.kernel in w.lists
  {
    Index(4, v) != KERNEL_PML4 ==> !Covered(w.lists[w.kernel], v)
  }

  ghost predicate Harmless(w: World, op: Op) {
    w.kernel in w.lists &&
    match op
    case Create(user) => forall v: nat :: Canonical(v) ==> CreateSaid(w, v)
    case Map(space, item, phys) =>
      space in w.lists && forall r, v: nat :: r in w.lists && Canonical(v) ==> MapSaid(w, space, item, phys, r, v)
    case Unmap(space, virt, m) =>
      space in w.lists && forall r, v: nat :: r in w.lists && Canonical(v) ==> UnmapSaid(w, space, virt, m, r, v)
    case Destroy(user) => true
  }

  lemma SaysOne(maps: map<Item, nat>, maps': map<Item, nat>, v: nat, h: Option<Hit>)
    requires Says(maps, v, h)
    ensures SaysSame(maps, maps', v) <==> Says(maps', v, h)
  {
    hide HitOf;
    forall h' | Says(maps, v, h')
      ensures h' == h
    {
      if Covered(maps, v) {
        var m :| m in maps && m.Covers(v);
      }
    }
  }

  // ----- one step -----

  lemma BuiltIs(w: World, r: nat)
    requires Built(w) && r in w.lists
    ensures Rooted(w.frames, w.places, w.kernel, r) && Rooted(w.frames, w.places, w.kernel, w.kernel)
    ensures Placed(w.frames, w.places, w.kernel) && w.kernel in w.lists
    ensures r in w.places && w.places[r] == Place(4, 0, r)
    ensures w.kernel in w.places && w.places[w.kernel] == Place(4, 0, w.kernel)
    ensures w.kernel in w.frames && |w.frames[w.kernel]| == TABLE_SIZE
  {
    RootedIs(w.frames, w.places, w.kernel, r);
    hide Placed, SlotOk;
  }

  lemma AgreeAt(w: World, r: nat, v: nat)
    requires Agree(w) && r in w.lists && Canonical(v)
    ensures w.kernel in w.lists && Translated(w.frames, r, Both(w.lists, w.kernel, r), v)
    ensures Says(Both(w.lists, w.kernel, r), v, Walk(w.frames, r, 4, v))
  {
    TranslatedSays(w.frames, r, Both(w.lists, w.kernel, r), v);
    hide Translated, Says, Canonical;
  }

  lemma NewIsNew(w: World, user: nat, w': World)
    requires Built(w) && w'.kernel == w.kernel && Created(w, user, w')
    ensures user !in w.lists && user !in w.places && user != w.kernel
    ensures w'.lists == w.lists[user := map[]] && w'.places == w.places[user := Place(4, 0, user)]
    ensures w.kernel in w.frames && |w.frames[w.kernel]| == TABLE_SIZE
    ensures w'.frames == w.frames[user := BornWith(w.frames[w.kernel][KERNEL_PML4])]
    ensures Placed(w'.frames, w'.places, w.kernel)
  {
    BuiltIs(w, w.kernel);
    if user in w.lists {
      BuiltIs(w, user);
    }
    Birth(w.frames, w.places, w.kernel, user);
    hide Placed, TablesOk, BornWith;
  }

  lemma MapIs(w: World, space: nat, item: Item, phys: nat, w': World)
    requires w'.kernel == w.kernel && Mapped(w, space, item, phys, w')
    ensures space in w.lists && item !in w.lists[space]
    ensures item.addr % PageBytes(item.kind) == 0 && item.length % PageBytes(item.kind) == 0
    ensures RootsKept(w.frames, w.places, w'.frames, w'.places, w.kernel)
    ensures Added(w.frames, w.places, w'.frames, w.kernel, space, item, phys, PageCount(item))
    ensures var more: map<Item, nat> := w.lists[space][item := phys]; w'.lists == w.lists[space := more]
  {
    hide RootsKept, Added, Strays, Evolves, PageCount, InPart, Fresh;
  }

  lemma DestroyIs(w: World, user: nat, w': World)
    requires w'.kernel == w.kernel && Destroyed(w, user, w')
    ensures user in w.lists && user != w.kernel && SameSlot(w.frames, user, w.kernel)
    ensures KeepsOthers(w.frames, w.places, w'.frames, user) && w'.lists == w.lists - {user}
  {
    hide SameSlot, KeepsOthers, Placed;
  }

  // Who was there still is, and sees the kernel's part if it did.
  lemma StepRoots(w: World, op: Op, w': World, r: nat)
    requires Built(w) && Step(w, op, w') && r in w.lists && r in w'.lists
    ensures Rooted(w'.frames, w'.places, w'.kernel, r)
    ensures Shares(w'.frames, r, w'.kernel) <==> Shares(w.frames, r, w.kernel)
  {
    assert w'.kernel == w.kernel;
    hide Built, Rooted, Shares, Created, Mapped, Unmapped, Destroyed;
    match op
    case Create(user) => CreatedRoot(w, user, w', r);
    case Map(space, item, phys) => MappedRoot(w, space, item, phys, w', r);
    case Unmap(space, virt, m) => UnmappedRoot(w, space, virt, m, w', r);
    case Destroy(user) => DestroyedRoot(w, user, w', r);
  }

  lemma CreatedRoot(w: World, user: nat, w': World, r: nat)
    requires Built(w) && w'.kernel == w.kernel && Created(w, user, w') && r in w.lists
    ensures Rooted(w'.frames, w'.places, w'.kernel, r)
    ensures Shares(w'.frames, r, w'.kernel) <==> Shares(w.frames, r, w.kernel)
  {
    hide *;
    BuiltIs(w, r);
    NewIsNew(w, user, w');
    BirthEvolves(w.frames, w.places, w.kernel, user);
    RootByEvolving(w.frames, w.places, w'.frames, w'.places, w.kernel, user, false, r);
  }

  lemma MappedRoot(w: World, space: nat, item: Item, phys: nat, w': World, r: nat)
    requires Built(w) && w'.kernel == w.kernel && Mapped(w, space, item, phys, w') && r in w.lists
    ensures Rooted(w'.frames, w'.places, w'.kernel, r)
    ensures Shares(w'.frames, r, w'.kernel) <==> Shares(w.frames, r, w.kernel)
  {
    hide *;
    BuiltIs(w, r);
    MapIs(w, space, item, phys, w');
    RootsKeptAt(w.frames, w.places, w'.frames, w'.places, w.kernel, r);
  }

  lemma UnmappedRoot(w: World, space: nat, virt: nat, m: Item, w': World, r: nat)
    requires Built(w) && w'.kernel == w.kernel && Unmapped(w, space, virt, m, w') && r in w.lists
    ensures Rooted(w'.frames, w'.places, w'.kernel, r)
    ensures Shares(w'.frames, r, w'.kernel) <==> Shares(w.frames, r, w.kernel)
  {
    hide *;
    BuiltIs(w, r);
    UnmappedDef(w, space, virt, m, w');
    BuiltIs(w, space);
    RunKeepsRoots(w.frames, w.places, w.kernel, space, PageLevel(m.kind), virt, m.length / PageBytes(m.kind));
    RootsKeptAt(w.frames, w.places, w'.frames, w'.places, w.kernel, r);
  }

  lemma DestroyedRoot(w: World, user: nat, w': World, r: nat)
    requires Built(w) && w'.kernel == w.kernel && Destroyed(w, user, w') && r in w'.lists
    ensures Rooted(w'.frames, w'.places, w'.kernel, r)
    ensures Shares(w'.frames, r, w'.kernel) <==> Shares(w.frames, r, w.kernel)
  {
    BuiltIs(w, r);
    RootedIs(w.frames, w.places, w.kernel, r);
    assert r != user && w.places[r].owner == r && w.places[w.kernel].owner == w.kernel;
    assert w'.frames[r] == w.frames[r] && w'.frames[w.kernel] == w.frames[w.kernel];
    hide Placed, SameSlot;
  }

  lemma StepBuilt(w: World, op: Op, w': World)
    requires Built(w) && Step(w, op, w')
    ensures Built(w')
  {
    assert w'.kernel == w.kernel;
    StepLists(w, op, w');
    hide *;
    forall r | r in w'.lists
      ensures Rooted(w'.frames, w'.places, w'.kernel, r)
    {
      if r in w.lists {
        StepRoots(w, op, w', r);
      } else {
        StepNew(w, op, w', r);
      }
    }
    BuiltFrom(w');
  }

  lemma BuiltFrom(w: World)
    requires w.kernel in w.lists && forall r :: r in w.lists ==> Rooted(w.frames, w.places, w.kernel, r)
    ensures Built(w)
  {
    hide Rooted;
  }

  lemma StepLists(w: World, op: Op, w': World)
    requires Built(w) && Step(w, op, w')
    ensures w'.kernel in w'.lists
  {
    hide Rooted, RootsKept, Added, Strays, Evolves, IsFound, UnmapOf, Placed, SameSlot, KeepsOthers, Fresh;
  }

  lemma StepNew(w: World, op: Op, w': World, r: nat)
    requires Built(w) && Step(w, op, w') && r !in w.lists && r in w'.lists
    ensures Rooted(w'.frames, w'.places, w'.kernel, r)
  {
    assert w.kernel in w.lists;
    hide Built, Rooted, RootsKept, Added, Strays, Evolves, IsFound, UnmapOf, Placed, SameSlot, KeepsOthers, Fresh;
    assert op.Create? && op.user == r;
    hide *;
    NewIsNew(w, r, w');
    BuiltIs(w, w.kernel);
    NewRooted(w, r, w');
  }

  lemma NewRooted(w: World, user: nat, w': World)
    requires w'.kernel == w.kernel && user !in w.places && user != w.kernel
    requires w'.places == w.places[user := Place(4, 0, user)]
    requires w.kernel in w.frames && |w.frames[w.kernel]| == TABLE_SIZE
    requires w'.frames == w.frames[user := BornWith(w.frames[w.kernel][KERNEL_PML4])]
    requires Placed(w'.frames, w'.places, w.kernel)
    requires w.kernel in w.places && w.places[w.kernel] == Place(4, 0, w.kernel)
    ensures Rooted(w'.frames, w'.places, w'.kernel, user)
  {
    hide Placed;
  }

  /** Who has the kernel's top entry keeps it through every operation of any address space, and
      agrees with the kernel on every kernel address. */
  lemma KernelSlotAgrees(w: World, op: Op, w': World, user: nat, v: nat)
    requires Built(w) && Step(w, op, w') && user in w.lists && user in w'.lists
    requires SharesKernel(w.frames, user, w.kernel) && user != w.kernel && Index(4, v) == KERNEL_PML4
    ensures SharesKernel(w'.frames, user, w'.kernel)
    ensures Walk(w'.frames, user, 4, v) == Walk(w'.frames, w'.kernel, 4, v)
  {
    StepRoots(w, op, w', user);
    assert w'.kernel == w.kernel;
    hide Step, Built, Rooted;
  }

  // ----- mapping -----

  lemma MapAgrees(w: World, space: nat, item: Item, phys: nat, w': World)
    requires Built(w) && Agree(w) && w'.kernel == w.kernel && Mapped(w, space, item, phys, w')
    ensures Agree(w') <==> Harmless(w, Map(space, item, phys))
  {
    MapIs(w, space, item, phys, w');
    hide Mapped;
    forall r, v: nat | r in w.lists && Canonical(v)
      ensures Translated(w'.frames, r, Both(w'.lists, w.kernel, r), v) <==> MapSaid(w, space, item, phys, r, v)
    {
      hide *;
      MapAgreesAt(w, space, item, phys, w', r, v);
    }
    hide Built, Canonical, MapSaid, Translated, RootsKept, Added, Both, PageCount, PageBytes;
  }

  lemma MapAgreesAt(w: World, space: nat, item: Item, phys: nat, w': World, r: nat, v: nat)
    requires Built(w) && Agree(w) && w'.kernel == w.kernel && Mapped(w, space, item, phys, w')
    requires r in w.lists && Canonical(v)
    ensures w.kernel in w.lists && space in w.lists && r in w'.lists && w.kernel in w'.lists
    ensures Translated(w'.frames, r, Both(w'.lists, w.kernel, r), v) <==> MapSaid(w, space, item, phys, r, v)
  {
    MapIs(w, space, item, phys, w');
    hide *;
    AgreeAt(w, r, v);
    BuiltIs(w, r);
    AddedOne(w.frames, w.places, w'.frames, w.kernel, space, r, item, phys, PageCount(item), v);
    TranslatedSays(w'.frames, r, Both(w'.lists, w.kernel, r), v);
    SaysOne(Both(w.lists, w.kernel, r), Both(w'.lists, w.kernel, r), v, Walk(w.frames, r, 4, v));
    MapSaidIs(w, space, item, phys, r, v, w'.frames, Both(w.lists, w.kernel, r), Both(w'.lists, w.kernel, r));
  }

  lemma MapSaidIs(w: World, space: nat, item: Item, phys: nat, r: nat, v: nat, f: Frames, before: map<Item, nat>,
      after: map<Item, nat>)
    requires space in w.lists && r in w.lists && w.kernel in w.lists && before == Both(w.lists, w.kernel, r)
    requires var more: map<Item, nat> := w.lists[space][item := phys];
      after == Both(w.lists[space := more], w.kernel, r)
    requires AddedAt(w.frames, f, w.kernel, space, r, item, phys, PageCount(item), v)
    requires SaysSame(before, after, v) <==> Says(after, v, Walk(w.frames, r, 4, v))
    ensures MapSaid(w, space, item, phys, r, v) <==> Says(after, v, Walk(f, r, 4, v))
  {
    hide Walk, Says, SaysSame, Ahead, LastTurn, PageHit, PageCount, Seen, Both;
  }

  // ----- unmapping -----

  lemma UnmapAgrees(w: World, space: nat, virt: nat, m: Item, w': World)
    requires Built(w) && Agree(w) && w'.kernel == w.kernel && Unmapped(w, space, virt, m, w')
    ensures Agree(w') <==> Harmless(w, Unmap(space, virt, m))
  {
    assert space in w.lists && w'.lists.Keys == w.lists.Keys;
    hide Unmapped;
    forall r, v: nat | r in w.lists && Canonical(v)
      ensures Translated(w'.frames, r, Both(w'.lists, w.kernel, r), v) <==> UnmapSaid(w, space, virt, m, r, v)
    {
      hide *;
      UnmapAgreesAt(w, space, virt, m, w', r, v);
    }
    hide Built, Canonical, UnmapSaid, Translated, Both;
  }

  lemma UnmapAgreesAt(w: World, space: nat, virt: nat, m: Item, w': World, r: nat, v: nat)
    requires Built(w) && Agree(w) && w'.kernel == w.kernel && Unmapped(w, space, virt, m, w')
    requires r in w.lists && Canonical(v)
    ensures w.kernel in w.lists && space in w.lists && r in w'.lists && w.kernel in w'.lists
    ensures Translated(w'.frames, r, Both(w'.lists, w.kernel, r), v) <==> UnmapSaid(w, space, virt, m, r, v)
  {
    hide *;
    UnmapIs(w, space, virt, m, w');
    AgreeAt(w, r, v);
    UnmapTaken(w, space, virt, m, r, v);
    TranslatedSays(w'.frames, r, Both(w'.lists, w.kernel, r), v);
    SaysOne(Both(w.lists, w.kernel, r), Both(w'.lists, w.kernel, r), v, Walk(w.frames, r, 4, v));
    UnmapSaidIs(w, space, virt, m, r, v, Both(w.lists, w.kernel, r), Both(w'.lists, w.kernel, r));
  }

  lemma UnmapIs(w: World, space: nat, virt: nat, m: Item, w': World)
    requires w'.kernel == w.kernel && Unmapped(w, space, virt, m, w')
    ensures space in w.lists && w'.lists == w.lists[space := w.lists[space] - {m}]
    ensures w'.frames == UnmapOf(w.frames, space, m, virt).frames
  {
    hide IsFound, UnmapOf;
  }

  lemma UnmapTaken(w: World, space: nat, virt: nat, m: Item, r: nat, v: nat)
    requires Built(w) && r in w.lists && space in w.lists
    ensures TakenFrom(w.frames, UnmapOf(w.frames, space, m, virt), w.kernel, space, r, PageLevel(m.kind), virt, v)
  {
    var level, n := PageLevel(m.kind), m.length / PageBytes(m.kind);
    hide *;
    BuiltIs(w, r);
    BuiltIs(w, space);
    UnmapOfIs(w.frames, space, m, virt);
    RunOnAll(w.frames, w.places, w.kernel, space, level, virt, n, r, v);
  }

  lemma UnmapSaidIs(w: World, space: nat, virt: nat, m: Item, r: nat, v: nat, before: map<Item, nat>,
      after: map<Item, nat>)
    requires space in w.lists && r in w.lists && w.kernel in w.lists && before == Both(w.lists, w.kernel, r)
    requires after == Both(w.lists[space := w.lists[space] - {m}], w.kernel, r)
    requires TakenFrom(w.frames, UnmapOf(w.frames, space, m, virt), w.kernel, space, r, PageLevel(m.kind), virt, v)
    requires SaysSame(before, after, v) <==> Says(after, v, Walk(w.frames, r, 4, v))
    ensures UnmapSaid(w, space, virt, m, r, v) <==>
      Says(after, v, Walk(UnmapOf(w.frames, space, m, virt).frames, r, 4, v))
  {
    hide Walk, Says, SaysSame, Ahead, UnmapOf, Seen, Both;
  }

  // ----- creating and destroying -----

  // A new top-level table changes no walk.
  lemma OldWalk(w: World, user: nat, w': World, r: nat, v: nat)
    requires Built(w) && w'.kernel == w.kernel && Created(w, user, w') && r in w.lists
    ensures Walk(w'.frames, r, 4, v) == Walk(w.frames, r, 4, v)
  {
    NewIsNew(w, user, w');
    var table := BornWith(w.frames[w.kernel][KERNEL_PML4]);
    hide *;
    BuiltIs(w, r);
    RootServes(w.places, w.frames, w.kernel, r, v);
    FreshOffPath(w.frames, w.places, w.kernel, user, table, v);
    WalkSame(w.frames, w'.frames, w.places, w.kernel, r, 4, v);
  }

  // It leads where the kernel's does from the top slot, and nowhere else.
  lemma NewWalk(w: World, user: nat, w': World, v: nat)
    requires Built(w) && w'.kernel == w.kernel && Created(w, user, w')
    ensures Walk(w'.frames, user, 4, v) == if Index(4, v) == KERNEL_PML4 then Walk(w'.frames, w.kernel, 4, v) else None
  {
    NewIsNew(w, user, w');
    hide Built, Created, Placed;
  }

  lemma CreateAgrees(w: World, user: nat, w': World)
    requires Built(w) && Agree(w) && w'.kernel == w.kernel && Created(w, user, w')
    ensures Agree(w') <==> Harmless(w, Create(user))
  {
    NewIsNew(w, user, w');
    BuiltIs(w, w.kernel);
    hide Created, Built, Placed, Rooted;
    forall r, v: nat | r in w.lists && Canonical(v)
      ensures Translated(w'.frames, r, Both(w'.lists, w.kernel, r), v)
    {
      assert Both(w'.lists, w.kernel, r) == Both(w.lists, w.kernel, r);
      hide *;
      AgreeAt(w, r, v);
      OldWalk(w, user, w', r, v);
      TranslatedSays(w'.frames, r, Both(w'.lists, w.kernel, r), v);
    }
    forall v: nat | Canonical(v)
      ensures Translated(w'.frames, user, Both(w'.lists, w.kernel, user), v) <==> CreateSaid(w, v)
    {
      assert Both(w'.lists, w.kernel, user) == w.lists[w.kernel];
      assert Both(w.lists, w.kernel, w.kernel) == w.lists[w.kernel];
      hide *;
      AgreeAt(w, w.kernel, v);
      OldWalk(w, user, w', w.kernel, v);
      NewWalk(w, user, w', v);
      TranslatedSays(w'.frames, user, w.lists[w.kernel], v);
      NewSays(w, v, Walk(w'.frames, user, 4, v));
    }
    AgreeWithNew(w, user, w');
  }

  lemma NewSays(w: World, v: nat, h: Option<Hit>)
    requires w.kernel in w.lists
    requires if Index(4, v) == KERNEL_PML4 then Says(w.lists[w.kernel], v, h) else h == None
    ensures Says(w.lists[w.kernel], v, h) <==> CreateSaid(w, v)
  {
    hide HitOf, Index;
  }

  lemma AgreeWithNew(w: World, user: nat, w': World)
    requires w.kernel in w.lists && w'.kernel == w.kernel && user !in w.lists && w'.lists == w.lists[user := map[]]
    requires forall r, v: nat :: r in w.lists && Canonical(v) ==>
      Translated(w'.frames, r, Both(w'.lists, w.kernel, r), v)
    requires forall v: nat :: Canonical(v) ==>
      (Translated(w'.frames, user, Both(w'.lists, w.kernel, user), v) <==> CreateSaid(w, v))
    ensures Agree(w') <==> Harmless(w, Create(user))
  {
    hide Translated, Canonical, Both, CreateSaid;
  }

  lemma DestroyAgrees(w: World, user: nat, w': World)
    requires Built(w) && Agree(w) && w'.kernel == w.kernel && Destroyed(w, user, w')
    ensures Agree(w')
  {
    DestroyIs(w, user, w');
    assert w.kernel in w'.lists;
    hide Destroyed, Built, Agree;
    forall r, v: nat | r in w'.lists && Canonical(v)
      ensures Translated(w'.frames, r, Both(w'.lists, w.kernel, r), v)
    {
      assert Both(w'.lists, w.kernel, r) == Both(w.lists, w.kernel, r);
      hide *;
      BuiltIs(w, r);
      AgreeAt(w, r, v);
      RootKeepsWalk(w.frames, w.places, w'.frames, w.kernel, user, r, v);
      TranslatedSays(w'.frames, r, Both(w'.lists, w.kernel, r), v);
    }
    AgreeFrom(w');
  }

  lemma AgreeFrom(w: World)
    requires w.kernel in w.lists
    requires forall r, v: nat :: r in w.lists && Canonical(v) ==>
      Translated(w.frames, r, Both(w.lists, w.kernel, r), v)
    ensures Agree(w)
  {
    hide Translated, Canonical, Both;
  }

  /** One step, of anyone with any list: all agree afterwards exactly when it was harmless. */
  lemma StepAgrees(w: World, op: Op, w': World)
    requires Built(w) && Agree(w) && Step(w, op, w')
    ensures Built(w') && (Agree(w') <==> Harmless(w, op))
  {
    StepBuilt(w, op, w');
    assert w.kernel in w.lists && w'.kernel == w.kernel;
    hide Built, Agree, Created, Mapped, Unmapped, Destroyed;
    match op
    case Create(user) => CreateAgrees(w, user, w');
    case Map(space, item, phys) => MapAgrees(w, space, item, phys, w');
    case Unmap(space, virt, m) => UnmapAgrees(w, space, virt, m, w');
    case Destroy(user) => DestroyAgrees(w, user, w');
  }

  /** In every run, with any number of users and any lists: all agree up to a point exactly when
      all steps up to it are harmless. */
  lemma {:induction false} RunAgrees(ws: seq<World>, ops: seq<Op>, k: nat)
    requires History(ws, ops) && Built(ws[0]) && Agree(ws[0]) && k <= |ops|
    ensures (forall i :: 0 <= i <= k ==> Agree(ws[i])) <==> (forall i :: 0 <= i < k ==> Harmless(ws[i], ops[i]))
    ensures (forall i :: 0 <= i < k ==> Harmless(ws[i], ops[i])) ==> Built(ws[k])
    decreases k
  {
    hide Agree, Built, Step, Harmless;
    if k > 0 {
      RunAgrees(ws, ops, k - 1);
      assert Step(ws[k - 1], ops[k - 1], ws[k]);
      if Built(ws[k - 1]) && Agree(ws[k - 1]) {
        StepAgrees(ws[k - 1], ops[k - 1], ws[k]);
      }
    }
  }

  /** Where all agree, every mapping permits exactly what its type does, for everyone who has it. */
  lemma RightsAgree(w: World, r: nat, m: Item, v: nat)
    requires Agree(w) && r in w.lists && Canonical(v)
    requires m in Both(w.lists, w.kernel, r) && m.Covers(v)
    ensures Allows(w.frames, r, m.kind, v)
  {
    hide *;
    AgreeAt(w, r, v);
    TranslatedAllows(w.frames, r, Both(w.lists, w.kernel, r), m, v);
  }

  // ----- from a world that is in order -----

  lemma OkAgrees(w: World)
    requires WorldOk(w)
    ensures Built(w) && Agree(w)
  {
    hide *;
    OkKernel(w);
    forall r | r in w.lists
      ensures Rooted(w.frames, w.places, w.kernel, r)
    {
      OkIs(w, r);
      IsRooted(w.frames, w.places, w.kernel, r, r == w.kernel, w.lists[r]);
    }
    forall r, v: nat | r in w.lists && Canonical(v)
      ensures Translated(w.frames, r, Both(w.lists, w.kernel, r), v)
    {
      EveryAddressOf(w, r, v);
      BothIs(w.lists, w.kernel, r);
    }
    BuiltFrom(w);
    AgreeFrom(w);
  }

  lemma OkKernel(w: World)
    requires WorldOk(w)
    ensures w.kernel in w.lists
  {
  }

  lemma BothIs(lists: map<nat, map<Item, nat>>, kernel: nat, r: nat)
    requires r in lists && kernel in lists
    ensures Both(lists, kernel, r) == lists[r] + lists[kernel]
  {
  }

  /** From a world in order, a step that maps nothing outside the own part leaves all in agreement
      exactly when it is sound: the kernel's first mapping is not seen by a user born before, and a
      mapping unmapped from another page than its first is not gone. A step that does map outside
      the own part does so exactly when the lists say all it writes. */
  lemma AgreesExactly(w: World, op: Op, w': World)
    requires WorldOk(w) && Step(w, op, w')
    ensures Built(w) && Agree(w) && Built(w')
    ensures Agree(w') <==> Sound(w, op) || (Outside(w, op) && Harmless(w, op))
  {
    assert w'.kernel == w.kernel;
    hide *;
    OkAgrees(w);
    StepAgrees(w, op, w');
    StepExactly(w, op, w');
    if Sound(w, op) {
      OkAgrees(w');
    } else if !Outside(w, op) {
      UnsoundParts(w, op, w');
    }
  }

  // It maps something outside the own part.
  ghost predicate Outside(w: World, op: Op) {
    op.Map? && !InPart(op.space == w.kernel, op.item.addr, op.item.length)
  }

  lemma UnsoundParts(w: World, op: Op, w': World)
    requires WorldOk(w) && Step(w, op, w') && !Sound(w, op) && !Outside(w, op)
    ensures !Agree(w')
  {
    hide WorldOk, Mapped, Unmapped, Created, Destroyed, Agree, FromStart, KernelMapped;
    if op.Map? {
      var r :| r in w.lists && r != w.kernel;
      UnseenByEarly(w, op.item, op.phys, w', r);
    } else {
      LeftOver(w, op.space, op.virt, op.m, w');
    }
  }

  // What the kernel maps first is not seen by a user born before.
  lemma UnseenByEarly(w: World, item: Item, phys: nat, w': World, r: nat)
    requires WorldOk(w) && w'.kernel == w.kernel && Mapped(w, w.kernel, item, phys, w')
    requires InPart(true, item.addr, item.length) && !KernelMapped(w) && r in w.lists && r != w.kernel
    ensures !Agree(w')
  {
    OkIs(w, r);
    OkAgrees(w);
    BuiltIs(w, r);
    MapIs(w, w.kernel, item, phys, w');
    MappedDef(w, w.kernel, item, phys, w');
    assert ItemOk(item, phys, Lo(true), Hi(true));
    var v := item.addr;
    assert Canonical(v) && Index(4, v) == KERNEL_PML4 && item.Covers(v) && r in w'.lists;
    assert SameSlot(w.frames, r, w.kernel) && !Seen(w.frames, w.kernel, w.kernel, r, v);
    EmptySlot(w.frames, r, v);
    assert item in Both(w'.lists, w.kernel, r);
    hide *;
    AddedOne(w.frames, w.places, w'.frames, w.kernel, w.kernel, r, item, phys, PageCount(item), v);
    UnseenIs(w.frames, w'.frames, w.kernel, w.kernel, r, item, phys, PageCount(item), v);
    if Agree(w') {
      AgreeAt(w', r, v);
      SaysHit(Both(w'.lists, w.kernel, r), item, v, None);
    }
  }

  lemma EmptySlot(frames: Frames, r: nat, v: nat)
    requires r in frames && |frames[r]| == TABLE_SIZE && Index(4, v) == KERNEL_PML4
    requires frames[r][KERNEL_PML4].Absent?
    ensures Walk(frames, r, 4, v) == None
  {
  }

  lemma UnseenIs(f0: Frames, f: Frames, kernel: nat, root: nat, r: nat, item: Item, phys: nat, k: nat, x: nat)
    requires AddedAt(f0, f, kernel, root, r, item, phys, k, x) && !Seen(f0, kernel, root, r, x)
    ensures Walk(f, r, 4, x) == Walk(f0, r, 4, x)
  {
    hide Walk, Seen, PageHit, LastTurn, Ahead;
  }

  lemma SaysHit(maps: map<Item, nat>, m: Item, v: nat, h: Option<Hit>)
    requires m in maps && m.Covers(v) && Says(maps, v, h)
    ensures h != None
  {
  }

  // From another page than the first, some page of the mapping is left.
  lemma LeftOver(w: World, space: nat, virt: nat, m: Item, w': World)
    requires WorldOk(w) && w'.kernel == w.kernel && Unmapped(w, space, virt, m, w') && !FromStart(m, virt)
    ensures !Agree(w')
  {
    OkIs(w, space);
    UnmapIs(w, space, virt, m, w');
    OkIs(w, w.kernel);
    var isKernel := space == w.kernel;
    assert m in w.lists[space] && space in w'.lists && w.kernel in w'.lists;
    hide *;
    IsRooted(w.frames, w.places, w.kernel, space, isKernel, w.lists[space]);
    UnmapExactly(w.frames, w.places, w.kernel, space, isKernel, w.lists[space], m, virt);
    MapsLess(w.lists[space], isKernel, m);
    if Agree(w') {
      OwnTranslates(w', space);
    }
  }

  // Own addresses are translated by the own list.
  lemma OwnTranslates(w: World, r: nat)
    requires Agree(w) && r in w.lists && w.kernel in w.lists
    requires MapsOk(w.lists[w.kernel], Lo(true), Hi(true)) || r == w.kernel
    ensures Translates(w.frames, r, r == w.kernel, w.lists[r])
  {
    forall v: nat | OwnAddress(r == w.kernel, v)
      ensures Translated(w.frames, r, w.lists[r], v)
    {
      AgreeAt(w, r, v);
      hide Agree, Translated, Says, Walk;
      if r == w.kernel {
        assert Both(w.lists, w.kernel, r) == w.lists[r];
      } else {
        NotInTop(w.lists[w.kernel], v);
        OwnSays(w.lists[r], w.lists[w.kernel], v, Walk(w.frames, r, 4, v));
      }
      TranslatedSays(w.frames, r, w.lists[r], v);
    }
  }

  lemma NotInTop(kernels: map<Item, nat>, v: nat)
    requires MapsOk(kernels, Lo(true), Hi(true)) && Index(4, v) != KERNEL_PML4
    ensures !Covered(kernels, v)
  {
    if Covered(kernels, v) {
      var m :| m in kernels && m.Covers(v);
      InTopSlot(kernels, m, v);
    }
  }

  lemma OwnSays(own: map<Item, nat>, kernels: map<Item, nat>, v: nat, h: Option<Hit>)
    requires Says(own + kernels, v, h) && !Covered(kernels, v)
    ensures Says(own, v, h)
  {
    hide HitOf;
    forall m | m in own && m.Covers(v)
      ensures m in own + kernels && (own + kernels)[m] == own[m]
    {
      assert m !in kernels;
    }
    if Covered(own + kernels, v) {
      var m :| m in own + kernels && m.Covers(v);
      assert m in own;
    }
  }

  // ----- where the list and the tables come apart -----

  /** With 4 KB at 1 MB, 4 KB more may be asked for at 1 MB above 2^48: no check refuses them. They
      are written over the page that is there, and list and tables agree afterwards exactly when
      it was the same physical page. */
  lemma AliasExactly(f0: Frames, p0: map<nat, Place>, f: Frames, kernel: nat, root: nat, maps: map<Item, nat>,
      p: nat, q: nat)
    requires Rooted(f0, p0, kernel, root) && Translates(f0, root, false, maps)
    requires maps == map[Item(0x10_0000, 0x1000, SMALL) := p] && p % 0x1000 == 0 && q % 0x1000 == 0
    requires Added(f0, p0, f, kernel, root, Item(0x1_0000_0010_0000, 0x1000, SMALL), q, 1)
    ensures !AreasOverlap(0x1_0000_0010_0000, 0x1000, 0x10_0000, 0x1000) && Index(4, 0x1_0000_0010_0000) < 0x100
    ensures Walk(f0, root, 4, 0x10_0000) == Some(Hit(p, 1, LeafFlags(SMALL)))
    ensures Walk(f, root, 4, 0x10_0000) == Some(Hit(q, 1, LeafFlags(SMALL)))
    ensures Translates(f, root, false, maps[Item(0x1_0000_0010_0000, 0x1000, SMALL) := q]) <==> p == q
  {
    var first, alias, v := Item(0x10_0000, 0x1000, SMALL), Item(0x1_0000_0010_0000, 0x1000, SMALL), 0x10_0000;
    hide *;
    AliasFacts(maps, p, q);
    FirstThere(f0, root, maps, p);
    AddedOne(f0, p0, f, kernel, root, root, alias, q, 1, v);
    OnesOwn(f0, kernel, root, v);
    AliasThere(f0, f, kernel, root, q);
    MapExactly(f0, p0, f, kernel, root, false, maps, alias, q);
    AliasSaid(maps, alias, p, q);
  }

  lemma AliasFacts(maps: map<Item, nat>, p: nat, q: nat)
    requires maps == map[Item(0x10_0000, 0x1000, SMALL) := p]
    ensures var alias := Item(0x1_0000_0010_0000, 0x1000, SMALL);
      && alias !in maps && PageCount(alias) == 1 && PageBytes(alias.kind) == 0x1000
      && alias.addr == 0x1_0000_0010_0000 && alias.length == 0x1000
      && alias.addr % 0x1000 == 0 && alias.length % 0x1000 == 0 && Index(4, alias.addr) < 0x100
      && !InPart(false, alias.addr, alias.length)
      && !AreasOverlap(alias.addr, 0x1000, 0x10_0000, 0x1000)
  {
  }

  lemma FirstThere(f: Frames, root: nat, maps: map<Item, nat>, p: nat)
    requires Translates(f, root, false, maps) && maps == map[Item(0x10_0000, 0x1000, SMALL) := p]
    ensures Walk(f, root, 4, 0x10_0000) == Some(Hit(p, 1, LeafFlags(SMALL)))
  {
    var first, v := Item(0x10_0000, 0x1000, SMALL), 0x10_0000;
    assert first in maps && first.Covers(v) && OwnAddress(false, v) && Translated(f, root, maps, v);
    hide Walk, Translates;
  }

  lemma AliasThere(f0: Frames, f: Frames, kernel: nat, root: nat, q: nat)
    requires AddedAt(f0, f, kernel, root, root, Item(0x1_0000_0010_0000, 0x1000, SMALL), q, 1, 0x10_0000)
    requires Seen(f0, kernel, root, root, 0x10_0000)
    ensures Walk(f, root, 4, 0x10_0000) == Some(Hit(q, 1, LeafFlags(SMALL)))
  {
    var alias, v := Item(0x1_0000_0010_0000, 0x1000, SMALL), 0x10_0000;
    assert Ahead(1, alias.addr, v) == 0 && LastTurn(1, 0, 1) == 0;
    assert PageHit(alias, q, 0, v) == Hit(q, 1, LeafFlags(SMALL));
    hide Walk, Seen;
  }

  lemma AliasSaid(maps: map<Item, nat>, alias: Item, p: nat, q: nat)
    requires maps == map[Item(0x10_0000, 0x1000, SMALL) := p] && alias == Item(0x1_0000_0010_0000, 0x1000, SMALL)
    ensures Redundant(false, maps, alias, q) <==> p == q
  {
    var first, maps' := Item(0x10_0000, 0x1000, SMALL), maps[alias := q];
    assert first in maps' && maps'[first] == p && first.Covers(0x10_0000) && OwnAddress(false, 0x10_0000);
    forall v: nat | OwnAddress(false, v)
      ensures PageSaid(maps', alias, q, v) <==> (first.Covers(v) ==> p == q)
    {
      AliasSaidAt(maps, alias, p, q, v);
    }
    hide PageSaid, OwnAddress;
  }

  lemma AliasSaidAt(maps: map<Item, nat>, alias: Item, p: nat, q: nat, v: nat)
    requires maps == map[Item(0x10_0000, 0x1000, SMALL) := p] && alias == Item(0x1_0000_0010_0000, 0x1000, SMALL)
    requires OwnAddress(false, v)
    ensures PageSaid(maps[alias := q], alias, q, v) <==> (Item(0x10_0000, 0x1000, SMALL).Covers(v) ==> p == q)
  {
    var first, maps' := Item(0x10_0000, 0x1000, SMALL), maps[alias := q];
    CanonicalPage(1, v, 0x10_0000);
    AheadNext(1, alias.addr, v);
    assert Page(1, alias.addr) == Page(1, 0x10_0000) && PageCount(alias) == 1 && !alias.Covers(v);
    assert Ahead(1, alias.addr, v) < 1 <==> first.Covers(v);
    if first.Covers(v) {
      assert first in maps' && HitOf(first, maps'[first], v) == Hit(p + (v - 0x10_0000), 1, LeafFlags(SMALL));
      assert LastTurn(1, 0, 1) == 0 && PageHit(alias, q, 0, v) == Hit(q + (v - 0x10_0000), 1, LeafFlags(SMALL));
      assert Covered(maps', v);
    }
    hide Page, Ahead, Canonical, LastTurn;
  }
}
