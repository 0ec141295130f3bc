/** The steps of mapping and unmapping one page: down through the tables, allocating
    those that are missing, to one final entry. */
module TableOps {
  import opened Options
  import opened Mapping
  import opened MemoryTypes
  import opened PageRuns
  import opened PageTables
  import opened PageWalks
  import opened Translation
  import opened Evolution
  import opened Unmapping
  import opened HeapSpec
  import opened PhysicalMemory

  // A multiple of the page size of a memory type.
  predicate WholePages(kind: MemoryType, x: nat) {
    x % PageBytes(kind) == 0
  }

  // No address is translated differently from any root.
  ghost predicate WalksKept(frames: Frames, places: map<nat, Place>, frames': Frames) {
    forall root, v: nat :: root in places && places[root].level == 4 ==>
      Walk(frames', root, 4, v) == Walk(frames, root, 4, v)
  }

  // Table `t` is met on the way to `w` from the top-level table `root`.
  ghost predicate OnWay(frames: Frames, places: map<nat, Place>, kernel: nat, root: nat, t: nat, level: nat, w: nat,
      flags: Flags)
  {
    && Serves(places, t, level, w) && Rooted(frames, places, kernel, root)
    && TableFor(frames, root, 4, w, level) == Some(t)
    && (level < 4 ==> places[t].owner == Owner(frames, root, kernel, w))
    && (forall f :: f in Above(frames, root, 4, w, level) ==> f == flags)
  }

  // An entry on the way to `w` that is present, but no table with these flags.
  ghost predicate BlockedAt(frames: Frames, root: nat, w: nat, level: nat, flags: Flags)
    requires 2 <= level <= 4
  {
    var t := TableFor(frames, root, 4, w, level);
    && t.Some? && t.value in frames && |frames[t.value]| == TABLE_SIZE
    && var e := frames[t.value][Index(level, w)];
       e.Present? && (e.ps || e.flags != flags)
  }

  ghost predicate Blocked(frames: Frames, root: nat, w: nat, kind: MemoryType) {
    exists level :: PageLevel(kind) < level <= 4 && BlockedAt(frames, root, w, level, TableFlags(kind))
  }

  // Some page of `item` is blocked.
  ghost predicate Obstructed(frames: Frames, root: nat, item: Item) {
    exists w :: item.Covers(w) && Blocked(frames, root, w, item.kind)
  }

  /** The table below entry `Index(level, w)` of `t`, allocated if need be; halts exactly
      if the entry is incompatible or memory is exhausted. */
  method AllocIfNotPresent(mem: Memory, t: nat, level: nat, w: nat, flags: Flags, ghost root: nat)
    returns (r: Option<nat>)
    requires mem.Valid() && 2 <= level <= 4 && OnWay(mem.frames, mem.places, mem.kernel, root, t, level, w, flags)
    modifies mem`frames, mem`places, mem.heap
    ensures mem.Valid() && mem.kernel == old(mem.kernel)
    ensures Evolves(old(mem.frames), old(mem.places), mem.frames, mem.places,
      old(Owner(mem.frames, root, mem.kernel, w)), Index(4, w) == KERNEL_PML4)
    ensures RootsKept(old(mem.frames), old(mem.places), mem.frames, mem.places, mem.kernel)
    ensures WalksKept(old(mem.frames), old(mem.places), mem.frames)
    ensures Rooted(mem.frames, mem.places, mem.kernel, root)
    ensures r.Some? ==> OnWay(mem.frames, mem.places, mem.kernel, root, r.value, level - 1, w, flags)
    ensures r.Some? ==> !BlockedAt(old(mem.frames), root, w, level, flags)
    ensures r.None? ==> mem.NoRoom() || BlockedAt(mem.frames, root, w, level, flags)
  {
    WayIsPlaced(mem.frames, mem.places, mem.kernel, root, t, level, w, flags);
    EvolvesNot(mem.frames, mem.places, mem.kernel, Owner(mem.frames, root, mem.kernel, w),
      Index(4, w) == KERNEL_PML4);
    RootsKeptNone(mem.frames, mem.places, mem.kernel);
    var i := Index(level, w);
    var parent := mem.frames[t][i];
    assert BlockedAt(mem.frames, root, w, level, flags) <==> parent.Present? && (parent.ps || parent.flags != flags);
    hide *;
    if parent.Present? {
      if parent.ps || parent.flags != flags {
        return None;
      }
      DownPresent(mem.frames, mem.places, mem.kernel, root, t, level, w, flags);
      return Some(parent.addr);
    }
    assert parent == Absent;
    r := AllocTableEntry(mem, t, level, w, flags, root);
  }

  // `alloc_table_entry`, where nothing is present.
  method AllocTableEntry(mem: Memory, t: nat, level: nat, w: nat, flags: Flags, ghost root: nat)
    returns (r: Option<nat>)
    requires mem.Valid() && 2 <= level <= 4 && OnWay(mem.frames, mem.places, mem.kernel, root, t, level, w, flags)
    requires t in mem.frames && |mem.frames[t]| == TABLE_SIZE && mem.frames[t][Index(level, w)] == Absent
    modifies mem`frames, mem`places, mem.heap
    ensures mem.Valid() && mem.kernel == old(mem.kernel)
    ensures Evolves(old(mem.frames), old(mem.places), mem.frames, mem.places,
      old(Owner(mem.frames, root, mem.kernel, w)), Index(4, w) == KERNEL_PML4)
    ensures RootsKept(old(mem.frames), old(mem.places), mem.frames, mem.places, mem.kernel)
    ensures WalksKept(old(mem.frames), old(mem.places), mem.frames)
    ensures Rooted(mem.frames, mem.places, mem.kernel, root)
    ensures r.Some? ==> OnWay(mem.frames, mem.places, mem.kernel, root, r.value, level - 1, w, flags)
    ensures r.None? ==> mem.NoRoom()
  {
    ghost var f0, p0, owner := mem.frames, mem.places, Owner(mem.frames, root, mem.kernel, w);
    ghost var place := Place(level - 1, Page(level, w), owner);
    EvolvesNot(f0, p0, mem.kernel, owner, Index(4, w) == KERNEL_PML4);
    RootsKeptNone(f0, p0, mem.kernel);
    WayIsPlaced(f0, p0, mem.kernel, root, t, level, w, flags);
    assert Placed(f0, p0, mem.kernel) && Rooted(f0, p0, mem.kernel, root);
    assert level > 1;
    hide Placed, Evolves, WalksKept, OnWay, Index, Page, Walk, Owner, Rooted, RootsKept;
    r := mem.AllocTable(place);
    if r.Some? {
      LinkFresh(f0, p0, mem.kernel, root, t, level, w, r.value, flags);
      mem.frames := SetEntry(mem.frames, t, Index(level, w), Present(r.value, false, flags));
    }
  }

  // Since the tables were `f0` with places `p0`, the first `k` pages of `item` have been mapped
  // for all who see them, and no table of anyone else has been changed unless one of the first
  // `upto` is in the top slot.
  ghost predicate MappedTo(mem: Memory, f0: Frames, p0: map<nat, Place>, pml4: nat, item: Item, phys: nat,
      k: nat, upto: nat)
    reads mem
  {
    && Rooted(f0, p0, mem.kernel, pml4) && RootsKept(f0, p0, mem.frames, mem.places, mem.kernel)
    && (pml4 == mem.kernel || !Strays(item, upto) ==>
         Evolves(f0, p0, mem.frames, mem.places, pml4, pml4 == mem.kernel))
    && WholePages(item.kind, item.addr) && WholePages(item.kind, phys)
    && Added(f0, p0, mem.frames, mem.kernel, pml4, item, phys, k)
  }

  ghost predicate IsRoot(mem: Memory, pml4: nat, isKernel: bool)
    reads mem
  {
    pml4 in mem.places && mem.places[pml4] == Place(4, 0, pml4) && isKernel == (pml4 == mem.kernel)
  }

  /** One turn of the loop in `do_map_memory`, for a page anywhere. */
  method MapPage(mem: Memory, pml4: nat, item: Item, phys: nat, ghost k: nat, w: nat,
      ghost f0: Frames, ghost p0: map<nat, Place>) returns (ok: bool)
    requires mem.Valid() && MappedTo(mem, f0, p0, pml4, item, phys, k, k) && w == PageStart(item, k)
    modifies mem`frames, mem`places, mem.heap
    ensures mem.Valid() && mem.kernel == old(mem.kernel)
    ensures ok ==> MappedTo(mem, f0, p0, pml4, item, phys, k + 1, k + 1)
    ensures !ok ==> mem.NoRoom() || Blocked(mem.frames, pml4, w, item.kind)
  {
    hide Blocked;
    StartWay(mem, f0, p0, pml4, item, phys, k);
    hide *;
    var pdp := NextTable(mem, pml4, 4, pml4, item, phys, k, w, f0, p0);
    if pdp.None? {
      return false;
    }
    if item.kind.ps1gb {
      LargestLevel(item.kind);
      WriteLeaf(mem, pdp.value, 3, pml4, item, phys, k, w, f0, p0);
      return true;
    }
    ok := MapBelow(mem, pdp.value, pml4, item, phys, k, w, f0, p0);
  }

  // The same, from the table of the gigabyte on, for smaller pages.
  method MapBelow(mem: Memory, pdp: nat, pml4: nat, item: Item, phys: nat, ghost k: nat, w: nat,
      ghost f0: Frames, ghost p0: map<nat, Place>) returns (ok: bool)
    requires mem.Valid() && MappedTo(mem, f0, p0, pml4, item, phys, k, k + 1) && w == PageStart(item, k)
    requires !item.kind.ps1gb && OnWay(mem.frames, mem.places, mem.kernel, pml4, pdp, 3, w, TableFlags(item.kind))
    modifies mem`frames, mem`places, mem.heap
    ensures mem.Valid() && mem.kernel == old(mem.kernel)
    ensures ok ==> MappedTo(mem, f0, p0, pml4, item, phys, k + 1, k + 1)
    ensures !ok ==> mem.NoRoom() || Blocked(mem.frames, pml4, w, item.kind)
  {
    SmallerLevels(item.kind);
    hide *;
    var pd := NextTable(mem, pdp, 3, pml4, item, phys, k, w, f0, p0);
    if pd.None? {
      return false;
    }
    if item.kind.ps2mb {
      WriteLeaf(mem, pd.value, 2, pml4, item, phys, k, w, f0, p0);
      return true;
    }
    var pt := NextTable(mem, pd.value, 2, pml4, item, phys, k, w, f0, p0);
    if pt.None? {
      return false;
    }
    WriteLeaf(mem, pt.value, 1, pml4, item, phys, k, w, f0, p0);
    return true;
  }

  /** The loop of `do_map_memory`, from any address: every page is mapped, and of other pages
      nothing changes. */
  method MapPages(mem: Memory, pml4: nat, item: Item, phys: nat) returns (ok: bool)
    requires mem.Valid() && Rooted(mem.frames, mem.places, mem.kernel, pml4)
    requires WholePages(item.kind, item.addr) && WholePages(item.kind, phys) && WholePages(item.kind, item.length)
    modifies mem`frames, mem`places, mem.heap
    ensures mem.Valid() && mem.kernel == old(mem.kernel)
    ensures ok ==> MappedTo(mem, old(mem.frames), old(mem.places), pml4, item, phys,
      PageCount(item), PageCount(item))
    ensures !ok ==> mem.NoRoom() || Obstructed(mem.frames, pml4, item)
  {
    MappingStarts(mem, pml4, item, phys);
    hide *;
    ok := MapLoop(mem, pml4, item, phys, mem.frames, mem.places);
  }

  method MapLoop(mem: Memory, pml4: nat, item: Item, phys: nat, ghost f0: Frames, ghost p0: map<nat, Place>)
    returns (ok: bool)
    requires mem.Valid() && MappedTo(mem, f0, p0, pml4, item, phys, 0, 0)
    requires PagesLeft(item, 0, item.addr, item.length)
    modifies mem`frames, mem`places, mem.heap
    ensures mem.Valid() && mem.kernel == old(mem.kernel)
    ensures ok ==> MappedTo(mem, f0, p0, pml4, item, phys,
      PageCount(item), PageCount(item))
    ensures !ok ==> mem.NoRoom() || Obstructed(mem.frames, pml4, item)
  {
    hide *;
    ghost var k, kernel := 0, mem.kernel;
    var virt: nat, length: nat := item.addr, item.length;
    while length != 0
      invariant mem.Valid() && mem.kernel == kernel && MappedTo(mem, f0, p0, pml4, item, phys, k, k)
      invariant PagesLeft(item, k, virt, length)
      decreases length
    {
      var done: nat;
      ok, done := MapNext(mem, pml4, item, phys, k, virt, length, f0, p0);
      if !ok {
        return false;
      }
      length, virt, k := length - done, virt + done, k + 1;
    }
    AllPages(item, k, virt);
    ok := true;
  }

  // Page `k` of `item` is the next, at `virt`, with `length` bytes to go.
  predicate PagesLeft(item: Item, k: nat, virt: nat, length: nat) {
    && virt == PageStart(item, k) && WholePages(item.kind, length)
    && k + length / PageBytes(item.kind) == PageCount(item)
  }

  method MapNext(mem: Memory, pml4: nat, item: Item, phys: nat, ghost k: nat, virt: nat, length: nat,
      ghost f0: Frames, ghost p0: map<nat, Place>) returns (ok: bool, done: nat)
    requires mem.Valid() && MappedTo(mem, f0, p0, pml4, item, phys, k, k)
    requires PagesLeft(item, k, virt, length) && length != 0
    modifies mem`frames, mem`places, mem.heap
    ensures mem.Valid() && mem.kernel == old(mem.kernel) && 0 < done <= length
    ensures PagesLeft(item, k + 1, virt + done, length - done)
    ensures ok ==> MappedTo(mem, f0, p0, pml4, item, phys, k + 1, k + 1)
    ensures !ok ==> mem.NoRoom() || Obstructed(mem.frames, pml4, item)
  {
    hide *;
    NextPageLeft(item, k, virt, length);
    done := PageBytes(item.kind);
    ok := MapPage(mem, pml4, item, phys, k, virt, f0, p0);
    if !ok {
      ItemBlocked(mem.frames, pml4, item, virt);
    }
  }

  lemma ItemBlocked(frames: Frames, pml4: nat, item: Item, w: nat)
    requires item.Covers(w)
    ensures Blocked(frames, pml4, w, item.kind) ==> Obstructed(frames, pml4, item)
  {
    hide Blocked;
  }

  // `alloc_if_not_present` in the course of mapping a page.
  method NextTable(mem: Memory, t: nat, level: nat, pml4: nat, item: Item, phys: nat, ghost k: nat, w: nat,
      ghost f0: Frames, ghost p0: map<nat, Place>) returns (r: Option<nat>)
    requires mem.Valid() && MappedTo(mem, f0, p0, pml4, item, phys, k, k + 1) && w == PageStart(item, k)
    requires PageLevel(item.kind) < level <= 4
    requires OnWay(mem.frames, mem.places, mem.kernel, pml4, t, level, w, TableFlags(item.kind))
    modifies mem`frames, mem`places, mem.heap
    ensures mem.Valid() && mem.kernel == old(mem.kernel) && MappedTo(mem, f0, p0, pml4, item, phys, k, k + 1)
    ensures r.Some? ==> OnWay(mem.frames, mem.places, mem.kernel, pml4, r.value, level - 1, w, TableFlags(item.kind))
    ensures r.None? ==> mem.NoRoom() || Blocked(mem.frames, pml4, w, item.kind)
  {
    ghost var f1, p1 := mem.frames, mem.places;
    MappedToIs(mem, f0, p0, pml4, item, phys, k, k + 1);
    hide *;
    r := AllocIfNotPresent(mem, t, level, w, TableFlags(item.kind), pml4);
    BlockedOn(mem.frames, pml4, w, item.kind, level);
    MappedToKept(mem, f0, p0, f1, p1, pml4, item, phys, k);
  }

  // The final entry of a page.
  method WriteLeaf(mem: Memory, t: nat, level: nat, pml4: nat, item: Item, phys: nat, ghost k: nat, w: nat,
      ghost f0: Frames, ghost p0: map<nat, Place>)
    requires mem.Valid() && MappedTo(mem, f0, p0, pml4, item, phys, k, k + 1) && w == PageStart(item, k)
    requires level == PageLevel(item.kind)
    requires OnWay(mem.frames, mem.places, mem.kernel, pml4, t, level, w, TableFlags(item.kind))
    modifies mem`frames
    ensures mem.Valid() && mem.kernel == old(mem.kernel)
    ensures MappedTo(mem, f0, p0, pml4, item, phys, k + 1, k + 1)
  {
    ghost var f1, p1 := mem.frames, mem.places;
    MappedToIs(mem, f0, p0, pml4, item, phys, k, k + 1);
    MemoryIs(mem);
    hide *;
    WayIsPlaced(f1, p1, mem.kernel, pml4, t, level, w, TableFlags(item.kind));
    LeafStep(f0, p0, f1, p1, mem.kernel, pml4, item, phys, k, t);
    EntryIs(item, phys, k, level, w);
    mem.frames :=
      SetEntry(mem.frames, t, Index(level, w), Present(phys + (w - item.addr), level > 1, LeafFlags(item.kind)));
    MemoryFrom(mem);
    MappedToFrom(mem, f0, p0, pml4, item, phys, k + 1, k + 1);
  }

  lemma EntryIs(item: Item, phys: nat, k: nat, level: nat, w: nat)
    requires w == PageStart(item, k) && level == PageLevel(item.kind)
    ensures Present(phys + (w - item.addr), level > 1, LeafFlags(item.kind)) == LeafEntry(item, phys, k)
  {
  }

  // What the tables have no part in.
  lemma MemoryIs(mem: Memory)
    requires mem.Valid()
    ensures mem.heap.Valid() && mem.heap.base % PAGE_SIZE == 0 && Paged(mem.heap.s)
    ensures Placed(mem.frames, mem.places, mem.kernel) && Backed(mem.heap.s, mem.places)
  {
  }

  lemma MemoryFrom(mem: Memory)
    requires mem.heap.Valid() && mem.heap.base % PAGE_SIZE == 0 && Paged(mem.heap.s)
    requires Placed(mem.frames, mem.places, mem.kernel) && Backed(mem.heap.s, mem.places)
    ensures mem.Valid()
  {
  }

  // `present_table_entry`: the table below an entry, or why there is none.
  method PresentTable(mem: Memory, t: nat, level: nat, virt: nat) returns (way: Way)
    requires mem.Valid() && 2 <= level <= 4 && Serves(mem.places, t, level, virt)
    ensures t in mem.frames && |mem.frames[t]| == TABLE_SIZE
    ensures way == Down(level, mem.frames[t][Index(level, virt)])
    ensures way.At? ==> Serves(mem.places, way.table, level - 1, virt)
  {
    StepServes(mem.frames, mem.places, mem.kernel, t, level, virt);
    var e := mem.frames[t][Index(level, virt)];
    if e.Absent? {
      return Stuck(NotPresent);
    }
    if IsLeaf(level, e) {
      return Stuck(LargePage);
    }
    way := At(e.addr);
  }

  /** One turn of the loop in `do_unmap_memory`, from any address: down to the table for
      a page, if the way is open, and its entry there is cleared. */
  method UnmapPage(mem: Memory, pml4: nat, kind: MemoryType, virt: nat) returns (way: Way)
    requires mem.Valid() && pml4 in mem.places && mem.places[pml4].level == 4
    modifies mem`frames
    ensures mem.Valid()
    ensures way == WayDown(old(mem.frames), pml4, 4, virt, PageLevel(kind))
    ensures mem.frames ==
      if way.At? then ClearEntry(old(mem.frames), way.table, Index(PageLevel(kind), virt)) else old(mem.frames)
  {
    RootServes(mem.places, mem.frames, mem.kernel, pml4, virt);
    way := PresentTable(mem, pml4, 4, virt);
    if way.At? && !kind.ps1gb {
      way := PresentTable(mem, way.table, 3, virt);
      if way.At? && !kind.ps2mb {
        way := PresentTable(mem, way.table, 2, virt);
      }
    }
    if way.At? {
      ClearPlaced(mem.frames, mem.places, mem.kernel, pml4, PageLevel(kind), virt);
      mem.frames := SetEntry(mem.frames, way.table, Index(PageLevel(kind), virt), Absent);
    }
  }

  // From the tables cleared up to `virt`, with `length` bytes to go, `run` ends as it does.
  ghost predicate OnRun(run: Run, frames: Frames, pml4: nat, kind: MemoryType, virt: nat, length: nat) {
    && WholePages(kind, length)
    && var rest := UnmapRun(frames, pml4, PageLevel(kind), virt, length / PageBytes(kind));
       run.frames == rest.frames && run.end == rest.end
  }

  /** The loop of `do_unmap_memory`, from any address. */
  method UnmapPages(mem: Memory, pml4: nat, kind: MemoryType, at: nat, size: nat) returns (end: Ending)
    requires mem.Valid() && pml4 in mem.places && mem.places[pml4].level == 4
    requires WholePages(kind, size)
    modifies mem`frames
    ensures mem.Valid()
    ensures var run := UnmapRun(old(mem.frames), pml4, PageLevel(kind), at, size / PageBytes(kind));
      mem.frames == run.frames && end == run.end
  {
    ghost var run := UnmapRun(mem.frames, pml4, PageLevel(kind), at, size / PageBytes(kind));
    StartRun(mem.frames, pml4, kind, at, size);
    hide *;
    end := UnmapLoop(mem, pml4, kind, at, size, run);
  }

  method UnmapLoop(mem: Memory, pml4: nat, kind: MemoryType, at: nat, size: nat, ghost run: Run) returns (end: Ending)
    requires mem.Valid() && pml4 in mem.places && mem.places[pml4].level == 4
    requires OnRun(run, mem.frames, pml4, kind, at, size)
    modifies mem`frames
    ensures mem.Valid() && mem.frames == run.frames && end == run.end
  {
    var virt: nat, length: nat := at, size;
    hide *;
    while length != 0
      invariant mem.Valid() && OnRun(run, mem.frames, pml4, kind, virt, length)
      decreases length
    {
      var way := UnmapNext(mem, pml4, kind, virt, length, run);
      if way.Stuck? {
        return way.why;
      }
      length, virt := length - PageBytes(kind), Next(PageLevel(kind), virt);
    }
    RunDone(run, mem.frames, pml4, kind, virt);
    end := Complete;
  }

  // The first of the pages to go.
  method UnmapNext(mem: Memory, pml4: nat, kind: MemoryType, virt: nat, length: nat, ghost run: Run) returns (way: Way)
    requires mem.Valid() && pml4 in mem.places && mem.places[pml4].level == 4
    requires OnRun(run, mem.frames, pml4, kind, virt, length) && length != 0
    modifies mem`frames
    ensures mem.Valid() && PageBytes(kind) <= length
    ensures way.Stuck? ==> run.frames == mem.frames && run.end == way.why
    ensures way.At? ==> OnRun(run, mem.frames, pml4, kind, Next(PageLevel(kind), virt), length - PageBytes(kind))
  {
    ghost var f := mem.frames;
    hide *;
    way := UnmapPage(mem, pml4, kind, virt);
    RunGoesOn(run, f, pml4, kind, virt, length, way);
  }

  // ----- proofs -----

  lemma ClearPlaced(frames: Frames, places: map<nat, Place>, kernel: nat, root: nat, level: nat, v: nat)
    requires Placed(frames, places, kernel) && root in places && places[root].level == 4 && 1 <= level <= 3
    requires WayDown(frames, root, 4, v, level).At?
    ensures var t := WayDown(frames, root, 4, v, level).table;
      && t in frames && |frames[t]| == TABLE_SIZE
      && ClearEntry(frames, t, Index(level, v)) == SetEntry(frames, t, Index(level, v), Absent)
      && Placed(SetEntry(frames, t, Index(level, v), Absent), places, kernel)
  {
    WayServes(frames, places, kernel, root, level, v);
    hide *;
    ClearWalk(frames, places, kernel, root, level, v, root, v);
  }

  lemma StartRun(frames: Frames, pml4: nat, kind: MemoryType, virt: nat, length: nat)
    requires WholePages(kind, length)
    ensures OnRun(UnmapRun(frames, pml4, PageLevel(kind), virt, length / PageBytes(kind)), frames, pml4, kind, virt,
      length)
  {
  }

  lemma RunDone(run: Run, frames: Frames, pml4: nat, kind: MemoryType, virt: nat)
    requires OnRun(run, frames, pml4, kind, virt, 0)
    ensures run.frames == frames && run.end == Complete
  {
  }

  lemma OnePageLess(kind: MemoryType, length: nat)
    requires WholePages(kind, length) && length != 0
    ensures PageBytes(kind) <= length && WholePages(kind, length - PageBytes(kind))
    ensures length / PageBytes(kind) > 0
    ensures (length - PageBytes(kind)) / PageBytes(kind) == length / PageBytes(kind) - 1
  {
  }

  lemma RunGoesOn(run: Run, frames: Frames, pml4: nat, kind: MemoryType, virt: nat, length: nat, way: Way)
    requires OnRun(run, frames, pml4, kind, virt, length) && length != 0
    requires way == WayDown(frames, pml4, 4, virt, PageLevel(kind))
    ensures PageBytes(kind) <= length
    ensures way.Stuck? ==> run.frames == frames && run.end == way.why
    ensures way.At? ==>
      OnRun(run, ClearEntry(frames, way.table, Index(PageLevel(kind), virt)), pml4, kind,
        Next(PageLevel(kind), virt), length - PageBytes(kind))
  {
    OnePageLess(kind, length);
    hide WholePages, PageBytes, PageLevel, WayDown, Index, Next;
  }

  // What the predicate says, in a form that does not depend on the heap.
  ghost predicate MappedBy(frames: Frames, places: map<nat, Place>, kernel: nat, f0: Frames, p0: map<nat, Place>,
      pml4: nat, item: Item, phys: nat, k: nat, upto: nat)
  {
    && Rooted(f0, p0, kernel, pml4) && RootsKept(f0, p0, frames, places, kernel)
    && (pml4 == kernel || !Strays(item, upto) ==> Evolves(f0, p0, frames, places, pml4, pml4 == kernel))
    && WholePages(item.kind, item.addr) && WholePages(item.kind, phys)
    && Added(f0, p0, frames, kernel, pml4, item, phys, k)
  }

  lemma MappedByRoot(frames: Frames, places: map<nat, Place>, kernel: nat, f0: Frames, p0: map<nat, Place>,
      pml4: nat, item: Item, phys: nat, k: nat, upto: nat)
    requires MappedBy(frames, places, kernel, f0, p0, pml4, item, phys, k, upto)
    ensures Rooted(frames, places, kernel, pml4)
  {
    RootsKeptAt(f0, p0, frames, places, kernel, pml4);
    hide Rooted, RootsKept, Evolves, Added, Strays, WholePages;
  }

  lemma MappedToIs(mem: Memory, f0: Frames, p0: map<nat, Place>, pml4: nat, item: Item, phys: nat, k: nat, upto: nat)
    ensures MappedTo(mem, f0, p0, pml4, item, phys, k, upto)
      <==> MappedBy(mem.frames, mem.places, mem.kernel, f0, p0, pml4, item, phys, k, upto)
  {
    hide Rooted, RootsKept, Evolves, Added, Strays;
  }

  lemma MappingStarts(mem: Memory, pml4: nat, item: Item, phys: nat)
    requires mem.Valid() && Rooted(mem.frames, mem.places, mem.kernel, pml4)
    requires WholePages(item.kind, item.addr) && WholePages(item.kind, phys) && WholePages(item.kind, item.length)
    ensures MappedTo(mem, mem.frames, mem.places, pml4, item, phys, 0, 0)
    ensures PagesLeft(item, 0, item.addr, item.length)
  {
    EvolvesNot(mem.frames, mem.places, mem.kernel, pml4, pml4 == mem.kernel);
    AddedNone(mem.frames, mem.places, mem.kernel, pml4, item, phys);
    RootsKeptNone(mem.frames, mem.places, mem.kernel);
    hide Rooted, RootsKept, Evolves, Added, Strays, Placed;
  }

  lemma LargestLevel(kind: MemoryType)
    requires kind.ps1gb
    ensures PageLevel(kind) == 3
  {
  }

  lemma SmallerLevels(kind: MemoryType)
    requires !kind.ps1gb
    ensures PageLevel(kind) == if kind.ps2mb then 2 else 1
  {
  }

  lemma AllPages(item: Item, k: nat, virt: nat)
    requires PagesLeft(item, k, virt, 0)
    ensures k == PageCount(item)
  {
  }

  lemma NextPageLeft(item: Item, k: nat, virt: nat, length: nat)
    requires PagesLeft(item, k, virt, length) && length != 0
    ensures virt == PageStart(item, k) && item.Covers(virt) && PageBytes(item.kind) <= length
    ensures PagesLeft(item, k + 1, virt + PageBytes(item.kind), length - PageBytes(item.kind))
  {
    OnePageLess(item.kind, length);
    StartWithin(item, k);
    hide PageBytes, WholePages;
    NextStart(k, PageBytes(item.kind));
  }

  lemma NextStart(k: nat, s: nat)
    ensures (k + 1) * s == k * s + s
  {
  }

  lemma BlockedOn(frames: Frames, pml4: nat, w: nat, kind: MemoryType, level: nat)
    requires PageLevel(kind) < level <= 4
    ensures BlockedAt(frames, pml4, w, level, TableFlags(kind)) ==> Blocked(frames, pml4, w, kind)
  {
    hide BlockedAt;
  }

  // Allocating a table on the way to a page.
  lemma MappedToKept(mem: Memory, f0: Frames, p0: map<nat, Place>, f1: Frames, p1: map<nat, Place>, pml4: nat,
      item: Item, phys: nat, k: nat)
    requires MappedBy(f1, p1, mem.kernel, f0, p0, pml4, item, phys, k, k + 1)
    requires var w := PageStart(item, k);
      Evolves(f1, p1, mem.frames, mem.places, Owner(f1, pml4, mem.kernel, w), Index(4, w) == KERNEL_PML4)
    requires WalksKept(f1, p1, mem.frames) && RootsKept(f1, p1, mem.frames, mem.places, mem.kernel)
    ensures MappedTo(mem, f0, p0, pml4, item, phys, k, k + 1)
  {
    StepEvolves(f0, p0, f1, p1, mem.frames, mem.places, mem.kernel, pml4, item, phys, k, k);
    RootsKeptTrans(f0, p0, f1, p1, mem.frames, mem.places, mem.kernel);
    AddedKept(f0, p0, f1, p1, mem.frames, mem.kernel, pml4, item, phys, k);
    hide Rooted, RootsKept, Evolves, Added, Strays, Owner, WalksKept, InTop;
  }

  // A step for page `k`, put behind what has gone before.
  lemma StepEvolves(f0: Frames, p0: map<nat, Place>, f1: Frames, p1: map<nat, Place>, f2: Frames,
      p2: map<nat, Place>, kernel: nat, pml4: nat, item: Item, phys: nat, k: nat, done: nat)
    requires MappedBy(f1, p1, kernel, f0, p0, pml4, item, phys, done, k + 1)
    requires var w := PageStart(item, k);
      Evolves(f1, p1, f2, p2, Owner(f1, pml4, kernel, w), Index(4, w) == KERNEL_PML4)
    ensures pml4 == kernel || !Strays(item, k + 1) ==> Evolves(f0, p0, f2, p2, pml4, pml4 == kernel)
  {
    hide *;
    MappedByEvolves(f1, p1, kernel, f0, p0, pml4, item, phys, done, k + 1);
    StraysNext(item, k);
    OwnerIs(f1, pml4, kernel, item, k);
    if pml4 == kernel {
      EvolvesMore(f1, p1, f2, p2, pml4, InTop(item, k));
      EvolvesTrans(f0, p0, f1, p1, f2, p2, pml4, true);
    } else if !Strays(item, k + 1) {
      EvolvesTrans(f0, p0, f1, p1, f2, p2, pml4, false);
    }
  }

  lemma MappedByEvolves(frames: Frames, places: map<nat, Place>, kernel: nat, f0: Frames, p0: map<nat, Place>,
      pml4: nat, item: Item, phys: nat, k: nat, upto: nat)
    requires MappedBy(frames, places, kernel, f0, p0, pml4, item, phys, k, upto)
    ensures pml4 == kernel || !Strays(item, upto) ==> Evolves(f0, p0, frames, places, pml4, pml4 == kernel)
  {
    hide Rooted, RootsKept, Evolves, Added, Strays, WholePages;
  }

  lemma OwnerIs(frames: Frames, pml4: nat, kernel: nat, item: Item, k: nat)
    ensures InTop(item, k) <==> Index(4, PageStart(item, k)) == KERNEL_PML4
    ensures !InTop(item, k) || pml4 == kernel ==> Owner(frames, pml4, kernel, PageStart(item, k)) == pml4
  {
    hide Shares;
  }

  lemma AddedKept(f0: Frames, p0: map<nat, Place>, f1: Frames, p1: map<nat, Place>, f2: Frames, kernel: nat, pml4: nat,
      item: Item, phys: nat, k: nat)
    requires Added(f0, p0, f1, kernel, pml4, item, phys, k)
    requires WalksKept(f1, p1, f2) && RootsKept(f0, p0, f1, p1, kernel)
    ensures Added(f0, p0, f2, kernel, pml4, item, phys, k)
  {
    hide *;
    forall r, x: nat | Rooted(f0, p0, kernel, r)
      ensures AddedAt(f0, f2, kernel, pml4, r, item, phys, k, x)
    {
      RootsKeptAt(f0, p0, f1, p1, kernel, r);
      RootedIs(f1, p1, kernel, r);
      AddedOne(f0, p0, f1, kernel, pml4, r, item, phys, k, x);
      WalkKeptAt(f1, p1, f2, r, x);
      AddedSame(f0, f1, f2, kernel, pml4, r, item, phys, k, x);
    }
    AddedAll(f0, p0, f2, kernel, pml4, item, phys, k);
  }

  lemma WalkKeptAt(f1: Frames, p1: map<nat, Place>, f2: Frames, r: nat, x: nat)
    requires WalksKept(f1, p1, f2) && r in p1 && p1[r].level == 4
    ensures Walk(f2, r, 4, x) == Walk(f1, r, 4, x)
  {
    hide Walk;
  }

  lemma AddedSame(f0: Frames, f1: Frames, f2: Frames, kernel: nat, pml4: nat, r: nat, item: Item, phys: nat, k: nat,
      x: nat)
    requires AddedAt(f0, f1, kernel, pml4, r, item, phys, k, x) && Walk(f2, r, 4, x) == Walk(f1, r, 4, x)
    ensures AddedAt(f0, f2, kernel, pml4, r, item, phys, k, x)
  {
    hide Walk, PageHit, LastTurn, Ahead, Seen;
  }

  lemma MappedToFrom(mem: Memory, f0: Frames, p0: map<nat, Place>, pml4: nat, item: Item, phys: nat, k: nat, upto: nat)
    requires MappedBy(mem.frames, mem.places, mem.kernel, f0, p0, pml4, item, phys, k, upto)
    ensures MappedTo(mem, f0, p0, pml4, item, phys, k, upto)
  {
    MappedToIs(mem, f0, p0, pml4, item, phys, k, upto);
    hide *;
  }

  // The final entry of a page, where the way to it ends.
  lemma LeafStep(f0: Frames, p0: map<nat, Place>, f1: Frames, p1: map<nat, Place>, kernel: nat, pml4: nat,
      item: Item, phys: nat, k: nat, t: nat)
    requires MappedBy(f1, p1, kernel, f0, p0, pml4, item, phys, k, k + 1)
    requires OnWay(f1, p1, kernel, pml4, t, PageLevel(item.kind), PageStart(item, k), TableFlags(item.kind))
    requires t in f1 && |f1[t]| == TABLE_SIZE
    ensures var f2 := SetEntry(f1, t, Index(PageLevel(item.kind), PageStart(item, k)), LeafEntry(item, phys, k));
      Placed(f2, p1, kernel) && MappedBy(f2, p1, kernel, f0, p0, pml4, item, phys, k + 1, k + 1)
  {
    var level, w, e := PageLevel(item.kind), PageStart(item, k), LeafEntry(item, phys, k);
    var i, owner := Index(level, w), Owner(f1, pml4, kernel, w);
    var f2 := SetEntry(f1, t, i, e);
    WayFacts(f1, p1, kernel, pml4, t, level, w, TableFlags(item.kind));
    LeafFits(p1, kernel, t, level, i, item, phys, k);
    assert WholePages(item.kind, item.addr) && WholePages(item.kind, phys);
    assert item.addr % PageBytes(item.kind) == 0 && phys % PageBytes(item.kind) == 0;
    assert Rooted(f0, p0, kernel, pml4) && RootsKept(f0, p0, f1, p1, kernel);
    assert Added(f0, p0, f1, kernel, pml4, item, phys, k);
    hide *;
    MappedByRoot(f1, p1, kernel, f0, p0, pml4, item, phys, k, k + 1);
    RootedIs(f1, p1, kernel, pml4);
    PlacedAfterSet(f1, p1, kernel, t, i, e);
    EvolvesBySet(f1, p1, kernel, owner, Index(4, w) == KERNEL_PML4, t, i, e);
    RootsByEvolving(f1, p1, f2, p1, kernel, owner, Index(4, w) == KERNEL_PML4);
    RootsKeptTrans(f0, p0, f1, p1, f2, p1, kernel);
    AddPage(f0, p0, f1, p1, kernel, pml4, item, phys, k, t);
    StepEvolves(f0, p0, f1, p1, f2, p1, kernel, pml4, item, phys, k, k);
    MappedByAll(f2, p1, kernel, f0, p0, pml4, item, phys, k + 1, k + 1);
  }

  lemma MappedByAll(frames: Frames, places: map<nat, Place>, kernel: nat, f0: Frames, p0: map<nat, Place>,
      pml4: nat, item: Item, phys: nat, k: nat, upto: nat)
    requires Rooted(f0, p0, kernel, pml4) && RootsKept(f0, p0, frames, places, kernel)
    requires pml4 == kernel || !Strays(item, upto) ==> Evolves(f0, p0, frames, places, pml4, pml4 == kernel)
    requires WholePages(item.kind, item.addr) && WholePages(item.kind, phys)
    requires Added(f0, p0, frames, kernel, pml4, item, phys, k)
    ensures MappedBy(frames, places, kernel, f0, p0, pml4, item, phys, k, upto)
  {
    hide Rooted, RootsKept, Evolves, Added, Strays, WholePages;
  }

  lemma WayFacts(frames: Frames, places: map<nat, Place>, kernel: nat, root: nat, t: nat, level: nat, w: nat,
      flags: Flags)
    requires OnWay(frames, places, kernel, root, t, level, w, flags)
    ensures t in places && places[t].level == level && TableFor(frames, root, 4, w, level) == Some(t)
    ensures level < 4 ==> places[t].owner == Owner(frames, root, kernel, w)
    ensures level == 4 ==> t == root
    ensures forall f :: f in Above(frames, root, 4, w, level) ==> f == flags
  {
  }

  lemma LeafFits(places: map<nat, Place>, kernel: nat, t: nat, level: nat, i: nat, item: Item, phys: nat, k: nat)
    requires t in places && places[t].level == level == PageLevel(item.kind)
    ensures EntryOk(places, kernel, t, i, LeafEntry(item, phys, k))
  {
  }

  lemma StartWay(mem: Memory, f0: Frames, p0: map<nat, Place>, pml4: nat, item: Item, phys: nat, k: nat)
    requires mem.Valid() && MappedTo(mem, f0, p0, pml4, item, phys, k, k)
    ensures OnWay(mem.frames, mem.places, mem.kernel, pml4, pml4, 4, PageStart(item, k), TableFlags(item.kind))
    ensures MappedTo(mem, f0, p0, pml4, item, phys, k, k + 1)
    ensures PageLevel(item.kind) < 4
  {
    RootsKeptAt(f0, p0, mem.frames, mem.places, mem.kernel, pml4);
    RootServes(mem.places, mem.frames, mem.kernel, pml4, PageStart(item, k));
    StraysMore(item, k);
    hide Evolves, Added, Strays, Placed, Walk, RootsKept, SlotOk;
  }

  lemma StraysMore(item: Item, k: nat)
    ensures Strays(item, k) ==> Strays(item, k + 1)
  {
  }

  lemma WayIsPlaced(frames: Frames, places: map<nat, Place>, kernel: nat, root: nat, t: nat, level: nat, w: nat,
      flags: Flags)
    requires OnWay(frames, places, kernel, root, t, level, w, flags)
    ensures t in frames && |frames[t]| == TABLE_SIZE && WalksKept(frames, places, frames)
    ensures Rooted(frames, places, kernel, root)
  {
    StepServes(frames, places, kernel, t, level, w);
  }

  // Going one table further down.
  lemma {:induction false} FoundNext(frames: Frames, t: nat, level: nat, v: nat, target: nat, u: nat)
    requires 2 <= target <= level <= 4 && TableFor(frames, t, level, v, target) == Some(u)
    requires u in frames && |frames[u]| == TABLE_SIZE
    requires frames[u][Index(target, v)].Present? && !IsLeaf(target, frames[u][Index(target, v)])
    ensures TableFor(frames, t, level, v, target - 1) == Some(frames[u][Index(target, v)].addr)
    ensures Above(frames, t, level, v, target - 1) ==
      Above(frames, t, level, v, target) + [frames[u][Index(target, v)].flags]
    decreases level
  {
    if target < level {
      FoundNext(frames, frames[t][Index(level, v)].addr, level - 1, v, target, u);
    }
  }

  lemma DownPresent(frames: Frames, places: map<nat, Place>, kernel: nat, root: nat, t: nat, level: nat, w: nat,
      flags: Flags)
    requires OnWay(frames, places, kernel, root, t, level, w, flags) && 2 <= level <= 4
    requires t in frames && |frames[t]| == TABLE_SIZE
    requires var e := frames[t][Index(level, w)]; e.Present? && !e.ps && e.flags == flags
    ensures OnWay(frames, places, kernel, root, frames[t][Index(level, w)].addr, level - 1, w, flags)
  {
    var e := frames[t][Index(level, w)];
    StepServes(frames, places, kernel, t, level, w);
    assert EntryOk(places, kernel, t, Index(level, w), e) by {
      assert TableOk(frames, places, kernel, t);
    }
    FirstOwner(frames, places, kernel, root, w);
    assert level == 4 ==> t == root;
    hide Placed, Serves, SlotOk, Owner;
    FoundNext(frames, root, 4, w, level, t);
  }

  // Where an entry is absent the table is one's own.
  lemma AbsentIsOwn(frames: Frames, places: map<nat, Place>, kernel: nat, root: nat, t: nat, level: nat, w: nat,
      flags: Flags)
    requires OnWay(frames, places, kernel, root, t, level, w, flags) && 2 <= level <= 4
    requires t in frames && |frames[t]| == TABLE_SIZE && frames[t][Index(level, w)] == Absent
    ensures t in places && places[t].level == level && places[t].owner == Owner(frames, root, kernel, w)
  {
  }

  lemma LinkFresh(f0: Frames, p0: map<nat, Place>, kernel: nat, root: nat, t: nat, level: nat, w: nat, f: nat,
      flags: Flags)
    requires 2 <= level <= 4 && OnWay(f0, p0, kernel, root, t, level, w, flags) && f !in p0
    requires t in f0 && |f0[t]| == TABLE_SIZE && f0[t][Index(level, w)] == Absent
    ensures var owner := Owner(f0, root, kernel, w);
      var places := p0[f := Place(level - 1, Page(level, w), owner)];
      var frames := SetEntry(f0[f := ZERO_TABLE], t, Index(level, w), Present(f, false, flags));
      && t != f
      && Placed(frames, places, kernel)
      && Evolves(f0, p0, frames, places, owner, Index(4, w) == KERNEL_PML4)
      && WalksKept(f0, p0, frames)
      && RootsKept(f0, p0, frames, places, kernel)
      && OnWay(frames, places, kernel, root, f, level - 1, w, flags)
  {
    var owner := Owner(f0, root, kernel, w);
    var places := p0[f := Place(level - 1, Page(level, w), owner)];
    var frames := SetEntry(f0[f := ZERO_TABLE], t, Index(level, w), Present(f, false, flags));
    AbsentIsOwn(f0, p0, kernel, root, t, level, w, flags);
    WayServed(f0, p0, kernel, root, t, level, w, flags);
    hide *;
    ServesNot(p0, t, level, w, f);
    LinkPlaced(f0, p0, kernel, t, level, w, f, flags, owner);
    LinkEvolves(f0, p0, kernel, t, level, w, f, flags, owner);
    LinkWalks(f0, p0, kernel, t, level, w, f, flags);
    RootsByEvolving(f0, p0, frames, places, kernel, owner, Index(4, w) == KERNEL_PML4);
    RootsKeptAt(f0, p0, frames, places, kernel, root);
    SameOwner(f0, frames, root, kernel, w);
    LinkFound(f0, p0, kernel, root, t, level, w, f, flags, owner);
  }

  lemma SameOwner(f0: Frames, f: Frames, root: nat, kernel: nat, w: nat)
    requires Shares(f, root, kernel) <==> Shares(f0, root, kernel)
    ensures Owner(f, root, kernel, w) == Owner(f0, root, kernel, w)
  {
    hide Shares;
  }

  lemma WayServed(frames: Frames, places: map<nat, Place>, kernel: nat, root: nat, t: nat, level: nat, w: nat,
      flags: Flags)
    requires OnWay(frames, places, kernel, root, t, level, w, flags)
    ensures Serves(places, t, level, w) && Placed(frames, places, kernel) && Rooted(frames, places, kernel, root)
    ensures root in places && places[root] == Place(4, 0, root) && TableFor(frames, root, 4, w, level) == Some(t)
    ensures forall f :: f in Above(frames, root, 4, w, level) ==> f == flags
  {
  }

  lemma LinkWalks(f0: Frames, p0: map<nat, Place>, kernel: nat, t: nat, level: nat, w: nat, f: nat, flags: Flags)
    requires Placed(f0, p0, kernel) && 2 <= level <= 4 && Serves(p0, t, level, w) && f !in p0
    requires t in f0 && |f0[t]| == TABLE_SIZE && f0[t][Index(level, w)] == Absent && t != f
    ensures WalksKept(f0, p0, SetEntry(f0[f := ZERO_TABLE], t, Index(level, w), Present(f, false, flags)))
  {
    forall r, v: nat | r in p0 && p0[r].level == 4
      ensures Walk(SetEntry(f0[f := ZERO_TABLE], t, Index(level, w), Present(f, false, flags)), r, 4, v) ==
        Walk(f0, r, 4, v)
    {
      WalkAfterLink(f0, p0, kernel, r, w, level, t, f, flags, v);
    }
  }

  lemma LinkPlaced(f0: Frames, p0: map<nat, Place>, kernel: nat, t: nat, level: nat, w: nat, f: nat, flags: Flags,
      owner: nat)
    requires Placed(f0, p0, kernel) && 2 <= level <= 4 && Serves(p0, t, level, w) && f !in p0 && t != f
    requires t in f0 && |f0[t]| == TABLE_SIZE && p0[t].owner == owner
    ensures Placed(SetEntry(f0[f := ZERO_TABLE], t, Index(level, w), Present(f, false, flags)),
                   p0[f := Place(level - 1, Page(level, w), owner)], kernel)
  {
    var p1 := p0[f := Place(level - 1, Page(level, w), owner)];
    PlacedWithFresh(f0, p0, kernel, f, p1[f]);
    PageIs(level, w);
    PlacedAfterSet(f0[f := ZERO_TABLE], p1, kernel, t, Index(level, w), Present(f, false, flags));
  }

  lemma LinkEvolves(f0: Frames, p0: map<nat, Place>, kernel: nat, t: nat, level: nat, w: nat, f: nat, flags: Flags,
      owner: nat)
    requires Placed(f0, p0, kernel) && 2 <= level <= 4 && Serves(p0, t, level, w) && f !in p0 && t != f
    requires p0[t].owner == owner
    requires t in f0 && |f0[t]| == TABLE_SIZE && f0[t][Index(level, w)] == Absent
    ensures Evolves(f0, p0, SetEntry(f0[f := ZERO_TABLE], t, Index(level, w), Present(f, false, flags)),
                    p0[f := Place(level - 1, Page(level, w), owner)], owner, Index(4, w) == KERNEL_PML4)
  {
    var f1, p1 := f0[f := ZERO_TABLE], p0[f := Place(level - 1, Page(level, w), owner)];
    var top, e := Index(4, w) == KERNEL_PML4, Present(f, false, flags);
    assert t in p1 && p1[t] == p0[t] && p0[t].level == level && f1[t][Index(level, w)] == Absent;
    hide *;
    EvolvesByFresh(f0, p0, kernel, owner, top, f, p1[f]);
    PlacedWithFresh(f0, p0, kernel, f, p1[f]);
    EvolvesBySet(f1, p1, kernel, owner, top, t, Index(level, w), e);
    EvolvesTrans(f0, p0, f1, p1, SetEntry(f1, t, Index(level, w), e), p1, owner, top);
  }

  lemma LinkFound(f0: Frames, p0: map<nat, Place>, kernel: nat, root: nat, t: nat, level: nat, w: nat, f: nat,
      flags: Flags, owner: nat)
    requires Placed(f0, p0, kernel) && 2 <= level <= 4 && f !in p0 && t != f
    requires Serves(p0, t, level, w) && TableFor(f0, root, 4, w, level) == Some(t)
    requires root in p0 && p0[root] == Place(4, 0, root)
    requires forall g :: g in Above(f0, root, 4, w, level) ==> g == flags
    requires t in f0 && |f0[t]| == TABLE_SIZE
    requires var frames := SetEntry(f0[f := ZERO_TABLE], t, Index(level, w), Present(f, false, flags));
      && Rooted(frames, p0[f := Place(level - 1, Page(level, w), owner)], kernel, root)
      && owner == Owner(frames, root, kernel, w)
    ensures OnWay(SetEntry(f0[f := ZERO_TABLE], t, Index(level, w), Present(f, false, flags)),
                  p0[f := Place(level - 1, Page(level, w), owner)], kernel, root, f, level - 1, w, flags)
  {
    var f1 := f0[f := ZERO_TABLE];
    var frames := SetEntry(f1, t, Index(level, w), Present(f, false, flags));
    RootServes(p0, f0, kernel, root, w);
    FreshOffPath(f0, p0, kernel, f, ZERO_TABLE, w);
    FoundSame(f0, f1, p0, kernel, root, 4, w, level);
    PlacedIgnoresFresh(f0, p0, kernel, f, ZERO_TABLE);
    SetBelow(f1, p0, kernel, t, level, Index(level, w), Present(f, false, flags), w);
    FoundSame(f1, frames, p0, kernel, root, 4, w, level);
    FoundNext(frames, root, 4, w, level, t);
    PrefixStep(level, w);
    PageIs(level, w);
    hide Rooted, Placed, Owner, SameOnPath;
  }
}
