/** Unmapping as it runs: from any address, page after page, until it is done or finds
    no table to clear an entry of. */
module Unmapping {
  import opened Options
  import opened MemoryTypes
  import opened PageTables
  import opened PageWalks
  import opened PageRuns
  import opened Translation
  import opened Evolution

  // How the loop comes to its end: with every page cleared, at an entry that is not
  // present, or at a large page, which it would take for a table.
  datatype Ending = Complete | NotPresent | LargePage

  // Where the way down to the table for a page leads.
  datatype Way = At(table: nat) | Stuck(why: Ending)

  // The tables after clearing `done` pages, and how that ended.
  datatype Run = Run(frames: Frames, done: nat, end: Ending)

  // What one entry says about the way down.
  function Down(level: nat, e: Entry): Way
    requires 1 <= level <= 4
  {
    if e.Absent? then Stuck(NotPresent)
    else if IsLeaf(level, e) then Stuck(LargePage)
    else At(e.addr)
  }

  function WayDown(frames: Frames, t: nat, level: nat, v: nat, target: nat): Way
    requires 1 <= target <= level <= 4
    decreases level
  {
    if target == level then At(t)
    else if t !in frames || |frames[t]| != TABLE_SIZE then Stuck(NotPresent)
    else
      var next := Down(level, frames[t][Index(level, v)]);
      if next.Stuck? then next else WayDown(frames, next.table, level - 1, v, target)
  }

  function ClearEntry(frames: Frames, t: nat, i: nat): Frames {
    if t in frames && i < |frames[t]| then SetEntry(frames, t, i, Absent) else frames
  }

  // `do_unmap_memory` from `v` on, with `n` pages of a size to go.
  function UnmapRun(frames: Frames, root: nat, level: nat, v: nat, n: nat): Run
    requires 1 <= level <= 3
    decreases n
  {
    if n == 0 then Run(frames, 0, Complete)
    else
      match WayDown(frames, root, 4, v, level)
      case Stuck(why) => Run(frames, 0, why)
      case At(t) =>
        var rest := UnmapRun(ClearEntry(frames, t, Index(level, v)), root, level, Next(level, v), n - 1);
        rest.(done := rest.done + 1)
  }

  lemma WayIsTable(frames: Frames, t: nat, level: nat, v: nat, target: nat)
    requires 1 <= target <= level <= 4
    ensures WayDown(frames, t, level, v, target).At? <==> TableFor(frames, t, level, v, target).Some?
    ensures WayDown(frames, t, level, v, target).At? ==>
      WayDown(frames, t, level, v, target).table == TableFor(frames, t, level, v, target).value
    decreases level
  {
    if target < level && t in frames && |frames[t]| == TABLE_SIZE {
      var next := Down(level, frames[t][Index(level, v)]);
      if next.At? {
        WayIsTable(frames, next.table, level - 1, v, target);
      }
    }
  }

  // The way down to the table of a page that is mapped is open.
  lemma MappedIsOpen(frames: Frames, t: nat, level: nat, v: nat, target: nat)
    requires 1 <= target <= level <= 4
    requires Walk(frames, t, level, v).Some? && Walk(frames, t, level, v).value.level == target
    ensures WayDown(frames, t, level, v, target).At?
    decreases level
  {
    if target < level {
      var next := Down(level, frames[t][Index(level, v)]);
      if next.At? {
        MappedIsOpen(frames, next.table, level - 1, v, target);
      }
    }
  }

  // ----- what the loop does to the tables -----

  // A table that the loop clears an entry of.
  lemma WayServes(frames: Frames, places: map<nat, Place>, kernel: nat, root: nat, level: nat, v: nat)
    requires Placed(frames, places, kernel) && root in places && places[root].level == 4 && 1 <= level <= 3
    requires WayDown(frames, root, 4, v, level).At?
    ensures var t := WayDown(frames, root, 4, v, level).table;
      && TableFor(frames, root, 4, v, level) == Some(t) && Serves(places, t, level, v)
      && t in frames && |frames[t]| == TABLE_SIZE
      && ClearEntry(frames, t, Index(level, v)) == SetEntry(frames, t, Index(level, v), Absent)
  {
    WayIsTable(frames, root, 4, v, level);
    RootServes(places, frames, kernel, root, v);
    FoundServes(frames, places, kernel, root, 4, v, level);
    StepServes(frames, places, kernel, WayDown(frames, root, 4, v, level).table, level, v);
  }

  /** One page cleared: every table keeps its place, and from a root that meets the same
      table exactly the addresses of that page are not translated any more. */
  lemma ClearWalk(frames: Frames, places: map<nat, Place>, kernel: nat, root: nat, level: nat, v: nat, r: nat, x: nat)
    requires Placed(frames, places, kernel) && root in places && places[root].level == 4 && 1 <= level <= 3
    requires WayDown(frames, root, 4, v, level).At?
    requires r in places && places[r].level == 4
    requires TableFor(frames, r, 4, v, level) == TableFor(frames, root, 4, v, level)
    ensures var f := ClearEntry(frames, WayDown(frames, root, 4, v, level).table, Index(level, v));
      && Placed(f, places, kernel)
      && Walk(f, r, 4, x) == if Page(level, x) == Page(level, v) then None else Walk(frames, r, 4, x)
  {
    var t := WayDown(frames, root, 4, v, level).table;
    WayServes(frames, places, kernel, root, level, v);
    assert EntryOk(places, kernel, t, Index(level, v), Absent);
    ServesLevel(places, t, level, v);
    hide *;
    PlacedAfterSet(frames, places, kernel, t, Index(level, v), Absent);
    WalkAfterSet(frames, places, kernel, r, v, level, t, Absent, x);
  }

  // Exactly the pages that have been done are not translated any more, from root `r`.
  ghost predicate TakenOut(frames: Frames, run: Run, r: nat, level: nat, v: nat, x: nat)
    requires 1 <= level <= 3
  {
    Walk(run.frames, r, 4, x) == if Ahead(level, v, x) < run.done then None else Walk(frames, r, 4, x)
  }

  /** From any address, and however it ends, the loop takes exactly the pages it has done
      out of the translation. */
  lemma {:induction false} RunWalk(frames: Frames, places: map<nat, Place>, kernel: nat, root: nat,
      level: nat, v: nat, n: nat, x: nat)
    requires Placed(frames, places, kernel) && root in places && places[root].level == 4 && 1 <= level <= 3
    ensures Placed(UnmapRun(frames, root, level, v, n).frames, places, kernel)
    ensures TakenOut(frames, UnmapRun(frames, root, level, v, n), root, level, v, x)
    decreases n
  {
    hide *;
    if n == 0 || WayDown(frames, root, 4, v, level).Stuck? {
      RunStuck(frames, root, level, v, n, x);
    } else {
      var f := ClearEntry(frames, WayDown(frames, root, 4, v, level).table, Index(level, v));
      RunUnfolds(frames, root, level, v, n);
      ClearWalk(frames, places, kernel, root, level, v, root, x);
      RunWalk(f, places, kernel, root, level, Next(level, v), n - 1, x);
      TakenOutBefore(frames, f, UnmapRun(f, root, level, Next(level, v), n - 1), root, level, v, x);
    }
  }

  lemma RunStuck(frames: Frames, root: nat, level: nat, v: nat, n: nat, x: nat)
    requires 1 <= level <= 3 && (n == 0 || WayDown(frames, root, 4, v, level).Stuck?)
    ensures UnmapRun(frames, root, level, v, n).frames == frames && UnmapRun(frames, root, level, v, n).done == 0
    ensures TakenOut(frames, UnmapRun(frames, root, level, v, n), root, level, v, x)
  {
    hide Walk, Ahead, WayDown;
  }

  lemma TakenOutBefore(frames: Frames, f: Frames, rest: Run, r: nat, level: nat, v: nat, x: nat)
    requires 1 <= level <= 3 && TakenOut(f, rest, r, level, Next(level, v), x)
    requires Walk(f, r, 4, x) == if Page(level, x) == Page(level, v) then None else Walk(frames, r, 4, x)
    ensures TakenOut(frames, rest.(done := rest.done + 1), r, level, v, x)
  {
    AheadNext(level, v, x);
    hide Walk, Ahead, Next, Page;
  }

  lemma RunUnfolds(frames: Frames, root: nat, level: nat, v: nat, n: nat)
    requires 1 <= level <= 3 && n > 0 && WayDown(frames, root, 4, v, level).At?
    ensures var t := WayDown(frames, root, 4, v, level).table;
      var rest := UnmapRun(ClearEntry(frames, t, Index(level, v)), root, level, Next(level, v), n - 1);
      UnmapRun(frames, root, level, v, n) == rest.(done := rest.done + 1)
  {
  }

  lemma {:induction false} RunShort(frames: Frames, root: nat, level: nat, v: nat, n: nat)
    requires 1 <= level <= 3
    ensures UnmapRun(frames, root, level, v, n).done <= n
    ensures UnmapRun(frames, root, level, v, n).end == Complete ==> UnmapRun(frames, root, level, v, n).done == n
    decreases n
  {
    if n > 0 && WayDown(frames, root, 4, v, level).At? {
      var t := WayDown(frames, root, 4, v, level).table;
      RunShort(ClearEntry(frames, t, Index(level, v)), root, level, Next(level, v), n - 1);
    }
  }

  // ----- the list of mappings -----

  // `find_mapping`: of the mappings that the overlap test reports, the lowest.
  predicate IsFound(maps: map<Item, nat>, virt: nat, length: nat, m: Item) {
    && m in maps && AreasOverlap(virt, length, m.addr, m.length)
    && forall n :: n in maps && AreasOverlap(virt, length, n.addr, n.length) ==> m.addr <= n.addr
  }

  // The run that unmapping `m` from an address starts.
  function UnmapOf(frames: Frames, root: nat, m: Item, virt: nat): Run {
    UnmapRun(frames, root, PageLevel(m.kind), virt, m.length / PageBytes(m.kind))
  }

  // The address lies in the first page of the mapping, as far as the tables can tell.
  predicate FromStart(m: Item, virt: nat) {
    Page(PageLevel(m.kind), virt) == Page(PageLevel(m.kind), m.addr)
  }

  lemma FromStartExactly(m: Item, phys: nat, isKernel: bool, virt: nat)
    requires ItemOk(m, phys, Lo(isKernel), Hi(isKernel)) && Canonical(virt)
    ensures FromStart(m, virt) <==> m.addr <= virt < m.addr + PageBytes(m.kind)
  {
    CanonicalPage(PageLevel(m.kind), virt, m.addr);
  }

  // ----- the address space itself -----

  // The pages of a mapping from `v` on, `n` of them, are all there.
  ghost predicate AllMapped(frames: Frames, root: nat, level: nat, v: nat, n: nat)
    requires 1 <= level <= 3
  {
    forall x: nat :: Ahead(level, v, x) < n ==>
      Walk(frames, root, 4, x).Some? && Walk(frames, root, 4, x).value.level == level
  }

  lemma {:induction false} RunCompletes(frames: Frames, places: map<nat, Place>, kernel: nat, root: nat,
      level: nat, v: nat, n: nat)
    requires Placed(frames, places, kernel) && root in places && places[root].level == 4 && 1 <= level <= 3
    requires n <= Pages(level) && AllMapped(frames, root, level, v, n)
    ensures UnmapRun(frames, root, level, v, n).end == Complete
    decreases n
  {
    if n > 0 {
      assert Ahead(level, v, v) == 0;
      hide *;
      FirstIsOpen(frames, root, level, v, n);
      var f := ClearEntry(frames, WayDown(frames, root, 4, v, level).table, Index(level, v));
      RestMapped(frames, places, kernel, root, level, v, n);
      ClearWalk(frames, places, kernel, root, level, v, root, v);
      RunCompletes(f, places, kernel, root, level, Next(level, v), n - 1);
      RunUnfolds(frames, root, level, v, n);
    }
  }

  lemma FirstIsOpen(frames: Frames, root: nat, level: nat, v: nat, n: nat)
    requires 1 <= level <= 3 && n > 0 && AllMapped(frames, root, level, v, n) && Ahead(level, v, v) == 0
    ensures WayDown(frames, root, 4, v, level).At?
  {
    MappedIsOpen(frames, root, 4, v, level);
  }

  lemma RestMapped(frames: Frames, places: map<nat, Place>, kernel: nat, root: nat, level: nat, v: nat, n: nat)
    requires Placed(frames, places, kernel) && root in places && places[root].level == 4 && 1 <= level <= 3
    requires 0 < n <= Pages(level) && AllMapped(frames, root, level, v, n)
    requires WayDown(frames, root, 4, v, level).At?
    ensures var f := ClearEntry(frames, WayDown(frames, root, 4, v, level).table, Index(level, v));
      AllMapped(f, root, level, Next(level, v), n - 1)
  {
    var f := ClearEntry(frames, WayDown(frames, root, 4, v, level).table, Index(level, v));
    forall x: nat | Ahead(level, Next(level, v), x) < n - 1
      ensures Walk(f, root, 4, x).Some? && Walk(f, root, 4, x).value.level == level
    {
      AheadNext(level, v, x);
      hide Ahead, Next, Page, Walk, WayDown, Placed;
      ClearWalk(frames, places, kernel, root, level, v, root, x);
      assert Ahead(level, v, x) < n;
    }
  }

  // From an address on, as many pages as the mapping has are all there.
  ghost predicate MappedFrom(frames: Frames, root: nat, m: Item, virt: nat) {
    && AllMapped(frames, root, PageLevel(m.kind), virt, m.length / PageBytes(m.kind))
    && m.length / PageBytes(m.kind) <= Pages(PageLevel(m.kind))
  }

  lemma MappedFromIs(frames: Frames, root: nat, m: Item, virt: nat)
    requires MappedFrom(frames, root, m, virt)
    ensures AllMapped(frames, root, PageLevel(m.kind), virt, m.length / PageBytes(m.kind))
    ensures m.length / PageBytes(m.kind) <= Pages(PageLevel(m.kind))
  {
    hide AllMapped, PageBytes;
  }

  // From the first page of a mapping on, the loop meets the pages of the mapping.
  lemma MappingMapped(frames: Frames, root: nat, isKernel: bool, maps: map<Item, nat>, m: Item, virt: nat)
    requires Translates(frames, root, isKernel, maps) && MapsOk(maps, Lo(isKernel), Hi(isKernel)) && m in maps
    requires FromStart(m, virt)
    ensures MappedFrom(frames, root, m, virt)
  {
    assert ItemOk(m, maps[m], Lo(isKernel), Hi(isKernel));
    CoversExactly(m, maps[m], isKernel, Canon(virt)) by { CanonLow(virt); }
    forall x: nat | Ahead(PageLevel(m.kind), virt, x) < m.length / PageBytes(m.kind)
      ensures Walk(frames, root, 4, x).Some? && Walk(frames, root, 4, x).value.level == PageLevel(m.kind)
    {
      CanonLow(x);
      AheadSame(PageLevel(m.kind), virt, m.addr, x);
      AheadSame(PageLevel(m.kind), m.addr, m.addr, x);
      CoversExactly(m, maps[m], isKernel, Canon(x));
      CoveredHit(frames, root, isKernel, maps, m, Canon(x));
      CanonWalk(frames, root, 4, x);
    }
  }

  lemma CoveredHit(frames: Frames, root: nat, isKernel: bool, maps: map<Item, nat>, m: Item, v: nat)
    requires Translates(frames, root, isKernel, maps) && MapsOk(maps, Lo(isKernel), Hi(isKernel)) && m in maps
    requires m.Covers(v)
    ensures OwnAddress(isKernel, v) && Walk(frames, root, 4, v) == Some(HitOf(m, maps[m], v))
    ensures forall n :: n in maps && n != m ==> !n.Covers(v)
  {
    assert ItemOk(m, maps[m], Lo(isKernel), Hi(isKernel));
    OwnInSlot(isKernel, v);
    assert Translated(frames, root, maps, v);
    hide Walk, ItemOk;
  }

  /** Whatever address is given and however the loop ends: the tables agree with the list
      without the mapping afterwards exactly when the address lies in its first page. */
  lemma UnmapExactly(frames: Frames, places: map<nat, Place>, kernel: nat, root: nat, isKernel: bool,
      maps: map<Item, nat>, m: Item, virt: nat)
    requires Placed(frames, places, kernel) && root in places && places[root].level == 4
    requires Translates(frames, root, isKernel, maps) && MapsOk(maps, Lo(isKernel), Hi(isKernel)) && m in maps
    ensures Translates(UnmapOf(frames, root, m, virt).frames, root, isKernel, maps - {m}) <==> FromStart(m, virt)
    ensures FromStart(m, virt) ==> UnmapOf(frames, root, m, virt).end == Complete
  {
    if FromStart(m, virt) {
      UnmapWhole(frames, places, kernel, root, isKernel, maps, m, virt);
    } else {
      UnmapOther(frames, places, kernel, root, isKernel, maps, m, virt);
    }
  }

  lemma UnmapWhole(frames: Frames, places: map<nat, Place>, kernel: nat, root: nat, isKernel: bool,
      maps: map<Item, nat>, m: Item, virt: nat)
    requires Placed(frames, places, kernel) && root in places && places[root].level == 4
    requires Translates(frames, root, isKernel, maps) && MapsOk(maps, Lo(isKernel), Hi(isKernel)) && m in maps
    requires FromStart(m, virt)
    ensures Translates(UnmapOf(frames, root, m, virt).frames, root, isKernel, maps - {m})
    ensures UnmapOf(frames, root, m, virt).end == Complete
  {
    hide *;
    var run := UnmapOf(frames, root, m, virt);
    ListIs(maps, isKernel, m);
    MappingMapped(frames, root, isKernel, maps, m, virt);
    MappedFromIs(frames, root, m, virt);
    RunCompletes(frames, places, kernel, root, PageLevel(m.kind), virt, m.length / PageBytes(m.kind));
    RunShort(frames, root, PageLevel(m.kind), virt, m.length / PageBytes(m.kind));
    UnmapOfIs(frames, root, m, virt);
    forall v: nat | OwnAddress(isKernel, v)
      ensures Walk(run.frames, root, 4, v) ==
        (if m.addr <= v < m.addr + m.length then None else Walk(frames, root, 4, v))
    {
      UnmapWholeAt(frames, places, kernel, root, isKernel, maps[m], m, virt, v);
    }
    ClearedIs(frames, run.frames, root, isKernel, m.addr, m.addr + m.length);
    TranslatesLess(frames, run.frames, root, isKernel, maps, m);
  }

  lemma ListIs(maps: map<Item, nat>, isKernel: bool, m: Item)
    requires MapsOk(maps, Lo(isKernel), Hi(isKernel)) && m in maps
    ensures ItemOk(m, maps[m], Lo(isKernel), Hi(isKernel))
    ensures forall m' :: m' in maps && m' != m ==> Apart(m', m)
  {
    hide ItemOk, Apart, Lo, Hi;
  }

  lemma UnmapOfIs(frames: Frames, root: nat, m: Item, virt: nat)
    ensures UnmapOf(frames, root, m, virt) ==
      UnmapRun(frames, root, PageLevel(m.kind), virt, m.length / PageBytes(m.kind))
  {
  }

  lemma UnmapWholeAt(frames: Frames, places: map<nat, Place>, kernel: nat, root: nat, isKernel: bool,
      phys: nat, m: Item, virt: nat, v: nat)
    requires Placed(frames, places, kernel) && root in places && places[root].level == 4
    requires ItemOk(m, phys, Lo(isKernel), Hi(isKernel)) && FromStart(m, virt) && OwnAddress(isKernel, v)
    requires UnmapOf(frames, root, m, virt).done == m.length / PageBytes(m.kind)
    ensures Walk(UnmapOf(frames, root, m, virt).frames, root, 4, v) ==
      (if m.addr <= v < m.addr + m.length then None else Walk(frames, root, 4, v))
  {
    var level, n := PageLevel(m.kind), m.length / PageBytes(m.kind);
    assert Page(level, virt) == Page(level, m.addr);
    hide *;
    UnmapOfIs(frames, root, m, virt);
    RunWalk(frames, places, kernel, root, level, virt, n, v);
    AheadSame(level, virt, m.addr, v);
    OwnCanonical(isKernel, v);
    CoversExactly(m, phys, isKernel, v);
    TakenOutIs(frames, UnmapOf(frames, root, m, virt), root, level, virt, m.addr, n, m, v);
  }

  lemma OwnCanonical(isKernel: bool, v: nat)
    requires OwnAddress(isKernel, v)
    ensures Canonical(v)
  {
  }

  lemma TakenOutIs(frames: Frames, run: Run, root: nat, level: nat, virt: nat, start: nat, n: nat, m: Item, v: nat)
    requires 1 <= level <= 3 && TakenOut(frames, run, root, level, virt, v) && run.done == n
    requires Ahead(level, virt, v) == Ahead(level, start, v) && (m.Covers(v) <==> Ahead(level, start, v) < n)
    ensures Walk(run.frames, root, 4, v) ==
      if m.addr <= v < m.addr + m.length then None else Walk(frames, root, 4, v)
  {
    hide Walk, Ahead;
  }

  lemma ClearedIs(frames: Frames, frames': Frames, root: nat, isKernel: bool, start: nat, end: nat)
    requires forall v: nat :: OwnAddress(isKernel, v) ==>
      Walk(frames', root, 4, v) == (if start <= v < end then None else Walk(frames, root, 4, v))
    ensures Cleared(frames, frames', root, isKernel, start, end)
  {
    hide Walk, OwnAddress;
  }

  // From any other page, the first or the last page of the mapping is left.
  lemma UnmapOther(frames: Frames, places: map<nat, Place>, kernel: nat, root: nat, isKernel: bool,
      maps: map<Item, nat>, m: Item, virt: nat)
    requires Placed(frames, places, kernel) && root in places && places[root].level == 4
    requires Translates(frames, root, isKernel, maps) && MapsOk(maps, Lo(isKernel), Hi(isKernel)) && m in maps
    requires !FromStart(m, virt)
    ensures !Translates(UnmapOf(frames, root, m, virt).frames, root, isKernel, maps - {m})
  {
    assert ItemOk(m, maps[m], Lo(isKernel), Hi(isKernel));
    var level, n, last := PageLevel(m.kind), m.length / PageBytes(m.kind), m.addr + m.length - 1;
    hide *;
    FarEnd(m, maps[m], isKernel, virt);
    if Ahead(level, virt, m.addr) >= n {
      EndLeft(frames, places, kernel, root, isKernel, maps, m, virt, m.addr);
    } else {
      EndLeft(frames, places, kernel, root, isKernel, maps, m, virt, last);
    }
  }

  lemma EndLeft(frames: Frames, places: map<nat, Place>, kernel: nat, root: nat, isKernel: bool,
      maps: map<Item, nat>, m: Item, virt: nat, x: nat)
    requires Placed(frames, places, kernel) && root in places && places[root].level == 4
    requires Translates(frames, root, isKernel, maps) && MapsOk(maps, Lo(isKernel), Hi(isKernel)) && m in maps
    requires m.addr <= x < m.addr + m.length
    requires Ahead(PageLevel(m.kind), virt, x) >= m.length / PageBytes(m.kind)
    ensures !Translates(UnmapOf(frames, root, m, virt).frames, root, isKernel, maps - {m})
  {
    assert m.Covers(x);
    var run := UnmapOf(frames, root, m, virt);
    assert run == UnmapRun(frames, root, PageLevel(m.kind), virt, m.length / PageBytes(m.kind));
    CoveredHit(frames, root, isKernel, maps, m, x);
    hide *;
    KeptBeyond(frames, places, kernel, root, PageLevel(m.kind), virt, m.length / PageBytes(m.kind), x);
    LeftBehind(run.frames, root, isKernel, maps, m, x);
  }

  lemma KeptBeyond(frames: Frames, places: map<nat, Place>, kernel: nat, root: nat,
      level: nat, v: nat, n: nat, x: nat)
    requires Placed(frames, places, kernel) && root in places && places[root].level == 4 && 1 <= level <= 3
    ensures Ahead(level, v, x) >= n ==>
      Walk(UnmapRun(frames, root, level, v, n).frames, root, 4, x) == Walk(frames, root, 4, x)
  {
    RunWalk(frames, places, kernel, root, level, v, n, x);
    RunShort(frames, root, level, v, n);
    hide Walk, Ahead, UnmapRun, Placed;
  }

  lemma FarEnd(m: Item, phys: nat, isKernel: bool, virt: nat)
    requires ItemOk(m, phys, Lo(isKernel), Hi(isKernel)) && !FromStart(m, virt)
    ensures var level, n := PageLevel(m.kind), m.length / PageBytes(m.kind);
      m.length > 0 && (Ahead(level, virt, m.addr) >= n || Ahead(level, virt, m.addr + m.length - 1) >= n)
  {
    var level, n := PageLevel(m.kind), m.length / PageBytes(m.kind);
    LastPage(m, phys, isKernel);
    AheadNext(level, virt, m.addr);
    AheadNext(level, virt, m.addr + m.length - 1);
    NextPage(level, virt);
    NextPage(level, m.addr);
    CoversExactly(m, phys, isKernel, m.addr) by { OwnInSlot(isKernel, m.addr); }
    hide Page;
  }

  lemma LastPage(m: Item, phys: nat, isKernel: bool)
    requires ItemOk(m, phys, Lo(isKernel), Hi(isKernel))
    ensures var level, n := PageLevel(m.kind), m.length / PageBytes(m.kind);
      n > 0 && Page(level, m.addr + m.length - 1) == Page(level, m.addr) + n - 1
  {
    OwnInSlot(isKernel, m.addr);
    OwnInSlot(isKernel, m.addr + m.length - 1);
    LowBits(m.addr);
    LowBits(m.addr + m.length - 1);
    LowAligned(PageLevel(m.kind), m.addr);
    LastLow(PageLevel(m.kind), m.addr % SPAN5, m.length);
  }

  lemma LastLow(level: nat, a: nat, length: nat)
    requires 1 <= level <= 3 && a % Span(level) == 0 && length % Span(level) == 0 && length > 0
    ensures length / Span(level) > 0 && (a + length - 1) / Span(level) == a / Span(level) + length / Span(level) - 1
  {
  }

  lemma LeftBehind(frames: Frames, root: nat, isKernel: bool, maps: map<Item, nat>, m: Item, v: nat)
    requires OwnAddress(isKernel, v) && forall n :: n in maps && n != m ==> !n.Covers(v)
    ensures Walk(frames, root, 4, v).Some? ==> !Translates(frames, root, isKernel, maps - {m})
  {
    hide Walk, OwnAddress;
    assert !Covered(maps - {m}, v);
    if Translates(frames, root, isKernel, maps - {m}) {
      assert Translated(frames, root, maps - {m}, v);
    }
  }

  // ----- all the others -----

  lemma WayOwner(frames: Frames, places: map<nat, Place>, kernel: nat, root: nat, level: nat, v: nat)
    requires Rooted(frames, places, kernel, root) && 1 <= level <= 3
    requires WayDown(frames, root, 4, v, level).At?
    ensures var t := WayDown(frames, root, 4, v, level).table;
      && TableFor(frames, root, 4, v, level) == Some(t)
      && t in places && places[t].owner == Owner(frames, root, kernel, v) && places[t].level == level
  {
    hide *;
    WayIsTable(frames, root, 4, v, level);
    WrittenOwner(frames, places, kernel, root, v, level, TableFor(frames, root, 4, v, level).value);
  }

  // One page cleared is a step of whoever owns the table.
  lemma ClearEvolves(frames: Frames, places: map<nat, Place>, kernel: nat, root: nat, level: nat, v: nat)
    requires Rooted(frames, places, kernel, root) && 1 <= level <= 3
    requires WayDown(frames, root, 4, v, level).At?
    ensures var f := ClearEntry(frames, WayDown(frames, root, 4, v, level).table, Index(level, v));
      && Evolves(frames, places, f, places, Owner(frames, root, kernel, v), false)
      && RootsKept(frames, places, f, places, kernel)
  {
    var t, actor := WayDown(frames, root, 4, v, level).table, Owner(frames, root, kernel, v);
    var f := ClearEntry(frames, t, Index(level, v));
    hide *;
    RootedIs(frames, places, kernel, root);
    WayOwner(frames, places, kernel, root, level, v);
    WayServes(frames, places, kernel, root, level, v);
    ClearWalk(frames, places, kernel, root, level, v, root, v);
    EvolvesBySet(frames, places, kernel, actor, false, t, Index(level, v), Absent);
    RootsByEvolving(frames, places, f, places, kernel, actor, false);
  }

  // Whoever sees the page cleared does not find it any more.
  lemma ClearSeen(frames: Frames, places: map<nat, Place>, kernel: nat, root: nat, level: nat, v: nat, r: nat, x: nat)
    requires Rooted(frames, places, kernel, root) && Rooted(frames, places, kernel, r) && 1 <= level <= 3
    requires WayDown(frames, root, 4, v, level).At?
    ensures var f := ClearEntry(frames, WayDown(frames, root, 4, v, level).table, Index(level, v));
      Walk(f, r, 4, x) ==
        if Page(level, x) == Page(level, v) && Seen(frames, kernel, root, r, x) then None else Walk(frames, r, 4, x)
  {
    hide *;
    RootedIs(frames, places, kernel, root);
    WayOwner(frames, places, kernel, root, level, v);
    WayServes(frames, places, kernel, root, level, v);
    SetSeen(frames, places, kernel, root, r, v, level, WayDown(frames, root, 4, v, level).table, Absent, x);
    if Page(level, x) == Page(level, v) {
      SeenInPage(frames, kernel, root, r, level, v, x);
    }
  }

  lemma {:induction false} RunKeepsRoots(frames: Frames, places: map<nat, Place>, kernel: nat, root: nat,
      level: nat, v: nat, n: nat)
    requires Rooted(frames, places, kernel, root) && 1 <= level <= 3
    ensures RootsKept(frames, places, UnmapRun(frames, root, level, v, n).frames, places, kernel)
    decreases n
  {
    hide *;
    if n == 0 || WayDown(frames, root, 4, v, level).Stuck? {
      RunStuck(frames, root, level, v, n, v);
      RootsKeptNone(frames, places, kernel);
    } else {
      var f := ClearEntry(frames, WayDown(frames, root, 4, v, level).table, Index(level, v));
      ClearEvolves(frames, places, kernel, root, level, v);
      RootsKeptAt(frames, places, f, places, kernel, root);
      RunKeepsRoots(f, places, kernel, root, level, Next(level, v), n - 1);
      RunUnfolds(frames, root, level, v, n);
      RootsKeptTrans(frames, places, f, places, UnmapRun(frames, root, level, v, n).frames, places, kernel);
    }
  }

  // What the top slot of a user has to do with the kernel's stays the same.
  lemma {:induction false} RunKeepsSlot(frames: Frames, places: map<nat, Place>, kernel: nat, root: nat,
      level: nat, v: nat, n: nat, user: nat)
    requires Rooted(frames, places, kernel, root) && 1 <= level <= 3
    requires user in places && places[user].level == 4 && SameSlot(frames, user, kernel)
    ensures SameSlot(UnmapRun(frames, root, level, v, n).frames, user, kernel)
    decreases n
  {
    hide *;
    if n == 0 || WayDown(frames, root, 4, v, level).Stuck? {
      RunStuck(frames, root, level, v, n, v);
    } else {
      var f := ClearEntry(frames, WayDown(frames, root, 4, v, level).table, Index(level, v));
      ClearEvolves(frames, places, kernel, root, level, v);
      RootsKeptAt(frames, places, f, places, kernel, root);
      RootedIs(frames, places, kernel, root);
      SameSlotKept(frames, places, f, places, Owner(frames, root, kernel, v), false, user, kernel);
      RunKeepsSlot(f, places, kernel, root, level, Next(level, v), n - 1, user);
      RunUnfolds(frames, root, level, v, n);
    }
  }

  /** So the tables of an address space, the kernel's slot included, are right afterwards
      exactly when the address lies in the first page. */
  lemma UnmapTables(frames: Frames, places: map<nat, Place>, kernel: nat, root: nat, isKernel: bool,
      maps: map<Item, nat>, m: Item, virt: nat)
    requires Placed(frames, places, kernel) && root in places && places[root] == Place(4, 0, root)
    requires isKernel == (root == kernel) && TablesOk(frames, places, kernel, root, isKernel, maps)
    requires MapsOk(maps, Lo(isKernel), Hi(isKernel)) && m in maps
    ensures TablesOk(UnmapOf(frames, root, m, virt).frames, places, kernel, root, isKernel, maps - {m})
      <==> FromStart(m, virt)
  {
    var f := UnmapOf(frames, root, m, virt).frames;
    assert f == UnmapRun(frames, root, PageLevel(m.kind), virt, m.length / PageBytes(m.kind)).frames;
    IsRooted(frames, places, kernel, root, isKernel, maps);
    assert !isKernel ==> SameSlot(frames, root, kernel);
    hide *;
    UnmapExactly(frames, places, kernel, root, isKernel, maps, m, virt);
    if !isKernel {
      RunKeepsSlot(frames, places, kernel, root, PageLevel(m.kind), virt, m.length / PageBytes(m.kind), root);
    }
    RootedTables(frames, f, places, kernel, root, isKernel, maps - {m});
  }

  lemma IsRooted(frames: Frames, places: map<nat, Place>, kernel: nat, root: nat, isKernel: bool, maps: map<Item, nat>)
    requires Placed(frames, places, kernel) && root in places && places[root] == Place(4, 0, root)
    requires isKernel == (root == kernel) && TablesOk(frames, places, kernel, root, isKernel, maps)
    ensures Rooted(frames, places, kernel, root) && Translates(frames, root, isKernel, maps)
    ensures places[root].level == 4
  {
    hide Placed, Translates;
  }

  lemma RootedTables(f0: Frames, frames: Frames, places: map<nat, Place>, kernel: nat, root: nat, isKernel: bool,
      maps: map<Item, nat>)
    requires Rooted(f0, places, kernel, root) && isKernel == (root == kernel)
    requires !isKernel ==> SameSlot(frames, root, kernel)
    ensures TablesOk(frames, places, kernel, root, isKernel, maps) <==> Translates(frames, root, isKernel, maps)
  {
    hide Placed, Translates, SameSlot, SlotOk;
  }

  /** The run of one address space, from any address and whether it ends there or at a large page,
      leaves every user's own translation alone but its own. */
  lemma {:induction false} RunKeepsUsers(frames: Frames, places: map<nat, Place>, kernel: nat, root: nat,
      level: nat, v: nat, n: nat, user: nat, maps: map<Item, nat>)
    requires Rooted(frames, places, kernel, root) && 1 <= level <= 3
    requires user in places && places[user] == Place(4, 0, user) && user != root && user != kernel
    requires TablesOk(frames, places, kernel, user, false, maps)
    ensures TablesOk(UnmapRun(frames, root, level, v, n).frames, places, kernel, user, false, maps)
    decreases n
  {
    hide *;
    if n == 0 || WayDown(frames, root, 4, v, level).Stuck? {
      RunStuck(frames, root, level, v, n, v);
    } else {
      var f := ClearEntry(frames, WayDown(frames, root, 4, v, level).table, Index(level, v));
      ClearEvolves(frames, places, kernel, root, level, v);
      ActorIs(frames, root, kernel, v);
      RootedIs(frames, places, kernel, root);
      RootsKeptAt(frames, places, f, places, kernel, root);
      OthersUndisturbed(frames, places, f, places, kernel, Owner(frames, root, kernel, v), false, user, false, maps);
      RunKeepsUsers(f, places, kernel, root, level, Next(level, v), n - 1, user, maps);
      RunUnfolds(frames, root, level, v, n);
    }
  }

  // What a run of `root`, begun at `v`, has taken out of the translation of `r`.
  ghost predicate TakenFrom(frames: Frames, run: Run, kernel: nat, root: nat, r: nat, level: nat, v: nat, x: nat)
    requires 1 <= level <= 3
  {
    Walk(run.frames, r, 4, x) ==
      if Ahead(level, v, x) < run.done && Seen(frames, kernel, root, r, x) then None else Walk(frames, r, 4, x)
  }

  /** A run takes from every address space exactly the pages done that it sees. */
  lemma {:induction false} RunOnAll(frames: Frames, places: map<nat, Place>, kernel: nat, root: nat,
      level: nat, v: nat, n: nat, r: nat, x: nat)
    requires Rooted(frames, places, kernel, root) && Rooted(frames, places, kernel, r) && 1 <= level <= 3
    ensures TakenFrom(frames, UnmapRun(frames, root, level, v, n), kernel, root, r, level, v, x)
    decreases n
  {
    hide *;
    if n == 0 || WayDown(frames, root, 4, v, level).Stuck? {
      RunStuck(frames, root, level, v, n, v);
      TakenNone(frames, UnmapRun(frames, root, level, v, n), kernel, root, r, level, v, x);
    } else {
      var f := ClearEntry(frames, WayDown(frames, root, 4, v, level).table, Index(level, v));
      ClearEvolves(frames, places, kernel, root, level, v);
      RootsKeptAt(frames, places, f, places, kernel, root);
      RootsKeptAt(frames, places, f, places, kernel, r);
      ClearSeen(frames, places, kernel, root, level, v, r, x);
      RunOnAll(f, places, kernel, root, level, Next(level, v), n - 1, r, x);
      RunUnfolds(frames, root, level, v, n);
      SeenKept(frames, f, kernel, root, r, x);
      TakenBefore(frames, f, UnmapRun(f, root, level, Next(level, v), n - 1), kernel, root, r, level, v, x);
    }
  }

  lemma TakenNone(frames: Frames, run: Run, kernel: nat, root: nat, r: nat, level: nat, v: nat, x: nat)
    requires 1 <= level <= 3 && run.frames == frames && run.done == 0
    ensures TakenFrom(frames, run, kernel, root, r, level, v, x)
  {
    hide Walk, Ahead, Seen;
  }

  lemma TakenBefore(frames: Frames, f: Frames, rest: Run, kernel: nat, root: nat, r: nat, level: nat, v: nat, x: nat)
    requires 1 <= level <= 3 && TakenFrom(f, rest, kernel, root, r, level, Next(level, v), x)
    requires Seen(f, kernel, root, r, x) == Seen(frames, kernel, root, r, x)
    requires Walk(f, r, 4, x) ==
      if Page(level, x) == Page(level, v) && Seen(frames, kernel, root, r, x) then None else Walk(frames, r, 4, x)
    ensures TakenFrom(frames, rest.(done := rest.done + 1), kernel, root, r, level, v, x)
  {
    AheadNext(level, v, x);
    hide Walk, Ahead, Next, Page, Seen;
  }

  // One of the `n` pages from `v` on is in one of the mappings.
  ghost predicate Meets(level: nat, v: nat, n: nat, maps: map<Item, nat>)
    requires 1 <= level <= 3
  {
    exists m, x :: m in maps && m.Covers(x) && Ahead(level, v, x) < n
  }

  /** A user's run, from any address and whether it ends there or at a large page, leaves the
      kernel's list and tables in agreement exactly when the user does not see the kernel's part
      or none of the pages done is in a kernel mapping. */
  lemma RunKeepsKernelExactly(frames: Frames, places: map<nat, Place>, kernel: nat, user: nat,
      level: nat, v: nat, n: nat, kernels: map<Item, nat>)
    requires Rooted(frames, places, kernel, user) && user != kernel && 1 <= level <= 3
    requires TablesOk(frames, places, kernel, kernel, true, kernels) && MapsOk(kernels, Lo(true), Hi(true))
    ensures TablesOk(UnmapRun(frames, user, level, v, n).frames, places, kernel, kernel, true, kernels)
      <==> !Shares(frames, user, kernel) || !Meets(level, v, UnmapRun(frames, user, level, v, n).done, kernels)
  {
    var run := UnmapRun(frames, user, level, v, n);
    RootedIs(frames, places, kernel, user);
    if Shares(frames, user, kernel) && Meets(level, v, run.done, kernels) {
      var m, x :| m in kernels && m.Covers(x) && Ahead(level, v, x) < run.done;
      RunOnAll(frames, places, kernel, user, level, v, n, kernel, x);
      CoveredHit(frames, kernel, true, kernels, m, x);
      InTopSlot(kernels, m, x);
      hide Walk, Ahead, UnmapRun, Rooted;
      assert Walk(run.frames, kernel, 4, x) == None;
      assert !Translated(run.frames, kernel, kernels, x);
    } else {
      forall x: nat | OwnAddress(true, x)
        ensures Translated(run.frames, kernel, kernels, x)
      {
        RunOnAll(frames, places, kernel, user, level, v, n, kernel, x);
        hide Ahead, UnmapRun, Rooted, Shares;
        Untouched(frames, run, kernel, user, level, v, kernels, x);
      }
    }
  }

  /** So for a run that completes the pages asked for decide. */
  lemma CompleteKeepsKernel(frames: Frames, places: map<nat, Place>, kernel: nat, user: nat,
      level: nat, v: nat, n: nat, kernels: map<Item, nat>)
    requires Rooted(frames, places, kernel, user) && user != kernel && 1 <= level <= 3
    requires TablesOk(frames, places, kernel, kernel, true, kernels) && MapsOk(kernels, Lo(true), Hi(true))
    requires UnmapRun(frames, user, level, v, n).end == Complete
    ensures TablesOk(UnmapRun(frames, user, level, v, n).frames, places, kernel, kernel, true, kernels)
      <==> !Shares(frames, user, kernel) || !Meets(level, v, n, kernels)
  {
    hide *;
    RunShort(frames, user, level, v, n);
    RunKeepsKernelExactly(frames, places, kernel, user, level, v, n, kernels);
  }

  lemma InTopSlot(kernels: map<Item, nat>, m: Item, x: nat)
    requires MapsOk(kernels, Lo(true), Hi(true)) && m in kernels && m.Covers(x)
    ensures Index(4, x) == KERNEL_PML4 && OwnAddress(true, x)
  {
    assert ItemOk(m, kernels[m], Lo(true), Hi(true));
  }

  lemma Untouched(frames: Frames, run: Run, kernel: nat, user: nat, level: nat, v: nat, kernels: map<Item, nat>,
      x: nat)
    requires 1 <= level <= 3 && (!Shares(frames, user, kernel) || !Meets(level, v, run.done, kernels))
    requires Translated(frames, kernel, kernels, x) && user != kernel
    requires TakenFrom(frames, run, kernel, user, kernel, level, v, x)
    ensures Translated(run.frames, kernel, kernels, x)
  {
    hide Walk, Ahead, Shares;
  }

  /** A run that ends below the top slot does not meet the kernel. */
  lemma BelowTopSlot(level: nat, v: nat, n: nat, kernels: map<Item, nat>)
    requires 1 <= level <= 3 && v % SPAN5 + n * Span(level) <= KERNEL_PML4 * Span(4)
    requires MapsOk(kernels, Lo(true), Hi(true))
    ensures !Meets(level, v, n, kernels)
  {
    forall m, x | m in kernels && m.Covers(x)
      ensures Ahead(level, v, x) >= n
    {
      hide *;
      InTopSlot(kernels, m, x);
      AheadOfTop(level, v, n, x);
    }
  }

  lemma AheadOfTop(level: nat, v: nat, n: nat, x: nat)
    requires 1 <= level <= 3 && v % SPAN5 + n * Span(level) <= KERNEL_PML4 * Span(4)
    requires Index(4, x) == KERNEL_PML4
    ensures Ahead(level, v, x) >= n
  {
    IndexOfLow(4, x);
    PagesBefore(level, v % SPAN5, n, x % SPAN5);
    assert Page(level, v) == v % SPAN5 / Span(level) && Page(level, x) == x % SPAN5 / Span(level);
    hide Span, Page, Index;
  }

  lemma PagesBefore(level: nat, a: nat, n: nat, x: nat)
    requires 1 <= level <= 3 && a + n * Span(level) <= KERNEL_PML4 * Span(4)
    requires x < SPAN5 && x / Span(4) % TABLE_SIZE == KERNEL_PML4
    ensures a / Span(level) + n <= x / Span(level)
  {
    assert x >= 511 * 0x80_0000_0000;
    if level == 1 {
      assert a + n * 0x1000 <= x;
    } else if level == 2 {
      assert a + n * 0x20_0000 <= x;
    } else {
      assert a + n * 0x4000_0000 <= x;
    }
  }

  // ----- where the list and the tables come apart -----

  /** The overlap test reports every user mapping for every range of kernel addresses, so
      the one found is the lowest there is. */
  lemma KernelAddressFinds(maps: map<Item, nat>, virt: nat, length: nat, m: Item)
    requires MapsOk(maps, Lo(false), Hi(false)) && m in maps
    requires Lo(true) <= virt && 0 < length && virt + length < WORD
    ensures AreasOverlap(virt, length, m.addr, m.length)
    ensures IsFound(maps, virt, length, m) <==> forall n :: n in maps ==> m.addr <= n.addr
  {
    forall n | n in maps
      ensures AreasOverlap(virt, length, n.addr, n.length)
    {
      assert ItemOk(n, maps[n], Lo(false), Hi(false));
      FarOverlap(virt, length, n.addr, n.length);
    }
    hide AreasOverlap, MapsOk;
  }

  lemma FarOverlap(virt: nat, length: nat, addr: nat, size: nat)
    requires Lo(true) <= virt && 0 < length && virt + length < WORD && 0 < size && addr + size <= HALF
    ensures AreasOverlap(virt, length, addr, size)
  {
    var d := addr + size - virt;
    assert Min((virt + length) % WORD, (addr + size) % WORD) - Max(virt, addr) == d;
    assert d % WORD == d + WORD;
  }

  // Pages of 4 KB.
  const SMALL := MemoryType(true, true, false, true, false, false, false)
  // Pages of 2 MB.
  const LARGE := MemoryType(true, true, false, true, false, true, false)

  /** With 4 KB of a user's at 1 MB and 4 KB of the kernel's at 0xFFFFFFFFC0000000, a user
      who unmaps the kernel's page loses its own from the list, and the page is gone from
      the kernel's tables: neither's list and tables agree. */
  lemma UserUnmapsKernelPage(frames: Frames, places: map<nat, Place>, kernel: nat, user: nat,
      maps: map<Item, nat>, kernels: map<Item, nat>)
    requires Rooted(frames, places, kernel, user) && user != kernel
    requires TablesOk(frames, places, kernel, user, false, maps) && MapsOk(maps, Lo(false), Hi(false))
    requires TablesOk(frames, places, kernel, kernel, true, kernels) && MapsOk(kernels, Lo(true), Hi(true))
    requires maps.Keys == {Item(0x10_0000, 0x1000, SMALL)}
    requires kernels.Keys == {Item(0xFFFF_FFFF_C000_0000, 0x1000, SMALL)}
    ensures var m, virt := Item(0x10_0000, 0x1000, SMALL), 0xFFFF_FFFF_C000_0000;
      var run := UnmapOf(frames, user, m, virt);
      && IsFound(maps, virt, 0x1000, m) && run.end == Complete
      && !TablesOk(run.frames, places, kernel, user, false, maps - {m})
      && !TablesOk(run.frames, places, kernel, kernel, true, kernels)
  {
    var m, virt := Item(0x10_0000, 0x1000, SMALL), 0xFFFF_FFFF_C000_0000;
    var k := Item(virt, 0x1000, SMALL);
    assert m in maps && k in kernels && k.Covers(virt);
    CoveredHit(frames, kernel, true, kernels, k, virt);
    assert SameSlot(frames, user, kernel) && Index(4, virt) == KERNEL_PML4;
    TopShared(frames, user, kernel, virt);
    assert Ahead(1, virt, virt) == 0;
    assert !FromStart(m, virt);
    assert UnmapOf(frames, user, m, virt) == UnmapRun(frames, user, 1, virt, 1);
    RootedIs(frames, places, kernel, user);
    hide *;
    KernelAddressFinds(maps, virt, 0x1000, m);
    OnePageDone(frames, user, 1, virt);
    assert Meets(1, virt, 1, kernels) by { assert m.addr == 0x10_0000; MeetsOne(1, virt, 1, kernels, k); }
    RunKeepsKernelExactly(frames, places, kernel, user, 1, virt, 1, kernels);
    UnmapExactly(frames, places, kernel, user, false, maps, m, virt);
  }

  lemma MeetsOne(level: nat, virt: nat, n: nat, kernels: map<Item, nat>, k: Item)
    requires 1 <= level <= 3 && k in kernels && k.Covers(virt) && Ahead(level, virt, virt) < n
    ensures Meets(level, virt, n, kernels)
  {
  }

  // Where the kernel has mapped something, who has its top entry sees it.
  lemma TopShared(frames: Frames, user: nat, kernel: nat, v: nat)
    requires SameSlot(frames, user, kernel) && Index(4, v) == KERNEL_PML4 && Walk(frames, kernel, 4, v).Some?
    ensures SharesKernel(frames, user, kernel) && Shares(frames, user, kernel)
    ensures Walk(frames, user, 4, v) == Walk(frames, kernel, 4, v)
  {
  }

  lemma OnePageDone(frames: Frames, root: nat, level: nat, v: nat)
    requires 1 <= level <= 3
    requires Walk(frames, root, 4, v).Some? && Walk(frames, root, 4, v).value.level == level
    ensures UnmapRun(frames, root, level, v, 1).end == Complete && UnmapRun(frames, root, level, v, 1).done == 1
  {
    MappedIsOpen(frames, root, 4, v, level);
    RunUnfolds(frames, root, level, v, 1);
    hide WayDown;
  }

  /** With one mapping of two pages at 1 MB, unmapping as many bytes from its second page
      on takes it from the list and leaves its first page in the tables. */
  lemma LaterPageLeavesFirst(frames: Frames, places: map<nat, Place>, kernel: nat, user: nat, maps: map<Item, nat>)
    requires Rooted(frames, places, kernel, user) && user != kernel
    requires TablesOk(frames, places, kernel, user, false, maps) && MapsOk(maps, Lo(false), Hi(false))
    requires maps.Keys == {Item(0x10_0000, 0x2000, SMALL)}
    ensures var m, virt := Item(0x10_0000, 0x2000, SMALL), 0x10_1000;
      var run := UnmapOf(frames, user, m, virt);
      && IsFound(maps, virt, 0x2000, m)
      && Walk(run.frames, user, 4, 0x10_0000).Some?
      && !Translates(run.frames, user, false, maps - {m})
  {
    var m, virt := Item(0x10_0000, 0x2000, SMALL), 0x10_1000;
    FirstIsMapped(frames, user, maps);
    RootedIs(frames, places, kernel, user);
    hide *;
    KeptBeyond(frames, places, kernel, user, 1, virt, 2, 0x10_0000);
    UnmapExactly(frames, places, kernel, user, false, maps, m, virt);
  }

  lemma FirstIsMapped(frames: Frames, user: nat, maps: map<Item, nat>)
    requires Translates(frames, user, false, maps) && MapsOk(maps, Lo(false), Hi(false))
    requires maps.Keys == {Item(0x10_0000, 0x2000, SMALL)}
    ensures var m, virt := Item(0x10_0000, 0x2000, SMALL), 0x10_1000;
      && m in maps && Walk(frames, user, 4, 0x10_0000).Some? && IsFound(maps, virt, 0x2000, m)
      && !FromStart(m, virt) && Ahead(1, virt, 0x10_0000) >= 2
      && UnmapOf(frames, user, m, virt) == UnmapRun(frames, user, 1, virt, 2)
  {
    var m, virt := Item(0x10_0000, 0x2000, SMALL), 0x10_1000;
    assert m.Covers(0x10_0000);
    CoveredHit(frames, user, false, maps, m, 0x10_0000);
    hide Walk, UnmapRun, Translates;
  }

  /** Two pages of 4 KB below one of 2 MB: unmapping from the second of them, the loop goes
      on into the large page and would take it for a table. */
  lemma LaterPageIntoLargePage(frames: Frames, places: map<nat, Place>, kernel: nat, user: nat, maps: map<Item, nat>)
    requires Rooted(frames, places, kernel, user) && user != kernel
    requires TablesOk(frames, places, kernel, user, false, maps) && MapsOk(maps, Lo(false), Hi(false))
    requires maps.Keys == {Item(0x3F_E000, 0x2000, SMALL), Item(0x40_0000, 0x20_0000, LARGE)}
    ensures var m, virt := Item(0x3F_E000, 0x2000, SMALL), 0x3F_F000;
      var run := UnmapOf(frames, user, m, virt);
      IsFound(maps, virt, 0x2000, m) && run.done == 1 && run.end == LargePage
  {
    var m, virt := Item(0x3F_E000, 0x2000, SMALL), 0x3F_F000;
    hide *;
    LargeIsMapped(frames, user, maps);
    RootedIs(frames, places, kernel, user);
    MappedIsOpen(frames, user, 4, virt, 1);
    var f := ClearEntry(frames, WayDown(frames, user, 4, virt, 1).table, Index(1, virt));
    ClearWalk(frames, places, kernel, user, 1, virt, user, 0x40_0000);
    RunUnfolds(frames, user, 1, virt, 2);
    LargeIsStuck(f, user, 4, 0x40_0000, 1);
    RunStops(f, user, 1, 0x40_0000, 1);
  }

  lemma LargeIsMapped(frames: Frames, user: nat, maps: map<Item, nat>)
    requires Translates(frames, user, false, maps) && MapsOk(maps, Lo(false), Hi(false))
    requires maps.Keys == {Item(0x3F_E000, 0x2000, SMALL), Item(0x40_0000, 0x20_0000, LARGE)}
    ensures var m, virt := Item(0x3F_E000, 0x2000, SMALL), 0x3F_F000;
      && m in maps && IsFound(maps, virt, 0x2000, m)
      && Walk(frames, user, 4, virt).Some? && Walk(frames, user, 4, virt).value.level == 1
      && Walk(frames, user, 4, 0x40_0000).Some? && Walk(frames, user, 4, 0x40_0000).value.level == 2
      && Next(1, virt) == 0x40_0000 && Page(1, virt) != Page(1, 0x40_0000)
      && UnmapOf(frames, user, m, virt) == UnmapRun(frames, user, 1, virt, 2)
  {
    var m, large, virt := Item(0x3F_E000, 0x2000, SMALL), Item(0x40_0000, 0x20_0000, LARGE), 0x3F_F000;
    assert m.Covers(virt) && large in maps && large.Covers(0x40_0000);
    CoveredHit(frames, user, false, maps, m, virt);
    CoveredHit(frames, user, false, maps, large, 0x40_0000);
    hide Walk, UnmapRun, Translates;
  }

  // The way down stops at a large page above the level asked for.
  lemma {:induction false} LargeIsStuck(frames: Frames, t: nat, level: nat, v: nat, target: nat)
    requires 1 <= target <= level <= 4
    requires Walk(frames, t, level, v).Some? && Walk(frames, t, level, v).value.level > target
    ensures WayDown(frames, t, level, v, target) == Stuck(LargePage)
    decreases level
  {
    var next := Down(level, frames[t][Index(level, v)]);
    if next.At? {
      LargeIsStuck(frames, next.table, level - 1, v, target);
    }
  }

  lemma RunStops(frames: Frames, root: nat, level: nat, v: nat, n: nat)
    requires 1 <= level <= 3 && n > 0 && WayDown(frames, root, 4, v, level).Stuck?
    ensures UnmapRun(frames, root, level, v, n) == Run(frames, 0, WayDown(frames, root, 4, v, level).why)
  {
  }
}
