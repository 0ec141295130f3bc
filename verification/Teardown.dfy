/** Taking an address space down: every table it can reach is freed once, children
    before parents, and nothing of the kernel's. */
module Teardown {
  import opened Options
  import opened HeapSpec
  import opened PageTables
  import opened PageWalks
  import opened Translation
  import opened Evolution
  import opened PhysicalMemory
  import opened TableOps
  import AddressSpace

  // The table that entry `i` of a table leads to.
  function Child(frames: Frames, t: nat, level: nat, i: nat): Option<nat>
    requires 1 <= level <= 4
  {
    if level > 1 && t in frames && |frames[t]| == TABLE_SIZE && i < TABLE_SIZE
       && frames[t][i].Present? && !IsLeaf(level, frames[t][i])
    then Some(frames[t][i].addr)
    else None
  }

  // The tables that can be reached from a table, itself included.
  ghost function Below(frames: Frames, t: nat, level: nat): set<nat>
    requires 1 <= level <= 4
    decreases level, TABLE_SIZE + 1
  {
    {t} + BelowFirst(frames, t, level, TABLE_SIZE)
  }

  // Those below its first `n` entries.
  ghost function BelowFirst(frames: Frames, t: nat, level: nat, n: nat): set<nat>
    requires 1 <= level <= 4 && n <= TABLE_SIZE
    decreases level, n
  {
    if n == 0 || level == 1 then {}
    else
      var c := Child(frames, t, level, n - 1);
      BelowFirst(frames, t, level, n - 1) + (if c.Some? then Below(frames, c.value, level - 1) else {})
  }

  // The prefix of the table `n` levels further up.
  function Ancestor(prefix: nat, n: nat): nat {
    if n == 0 then prefix else Ancestor(prefix, n - 1) / TABLE_SIZE
  }

  // `f` is below `t`: of the same owner, in the part of the address space that `t` serves.
  ghost predicate InPart(places: map<nat, Place>, f: nat, prefix: nat, level: nat, owner: nat) {
    && f in places && 1 <= places[f].level <= level && places[f].owner == owner
    && Ancestor(places[f].prefix, level - places[f].level) == prefix
  }

  // No entry of the table leads into the kernel's tables from outside.
  predicate NoKernelEntry(frames: Frames, places: map<nat, Place>, kernel: nat, t: nat)
    requires t in places && t in frames && |frames[t]| == TABLE_SIZE
  {
    places[t].level == 4 && places[t].owner != kernel ==> frames[t][KERNEL_PML4] == Absent
  }

  ghost predicate Standing(frames: Frames, places: map<nat, Place>, kernel: nat, t: nat, level: nat) {
    && Placed(frames, places, kernel) && 1 <= level <= 4
    && t in places && t in frames && |frames[t]| == TABLE_SIZE && places[t].level == level
    && NoKernelEntry(frames, places, kernel, t)
  }

  lemma ChildStands(frames: Frames, places: map<nat, Place>, kernel: nat, t: nat, level: nat, i: nat)
    requires Standing(frames, places, kernel, t, level) && i < TABLE_SIZE
    ensures Child(frames, t, level, i).Some? ==>
      var c := Child(frames, t, level, i).value;
      && level > 1 && Standing(frames, places, kernel, c, level - 1)
      && places[c].owner == places[t].owner && places[c].prefix == places[t].prefix * TABLE_SIZE + i
    ensures frames[t][i].Present? && level > 1 ==> (IsLeaf(level, frames[t][i]) <==> frames[t][i].ps)
  {
    assert TableOk(frames, places, kernel, t);
    assert EntryOk(places, kernel, t, i, frames[t][i]);
    if Child(frames, t, level, i).Some? {
      assert TableOk(frames, places, kernel, frames[t][i].addr);
    }
  }

  lemma {:induction false} BelowInPart(frames: Frames, places: map<nat, Place>, kernel: nat, t: nat, level: nat, f: nat)
    requires Standing(frames, places, kernel, t, level) && f in Below(frames, t, level)
    ensures InPart(places, f, places[t].prefix, level, places[t].owner)
    decreases level, TABLE_SIZE + 1
  {
    if f != t {
      var i := BelowFirstInPart(frames, places, kernel, t, level, TABLE_SIZE, f);
    }
  }

  lemma {:induction false} BelowFirstInPart(frames: Frames, places: map<nat, Place>, kernel: nat, t: nat, level: nat,
      n: nat, f: nat) returns (i: nat)
    requires Standing(frames, places, kernel, t, level) && n <= TABLE_SIZE && f in BelowFirst(frames, t, level, n)
    ensures level > 1 && i < n && InPart(places, f, places[t].prefix * TABLE_SIZE + i, level - 1, places[t].owner)
    ensures InPart(places, f, places[t].prefix, level, places[t].owner) && f != t
    decreases level, n
  {
    var c := Child(frames, t, level, n - 1);
    if c.Some? && f in Below(frames, c.value, level - 1) {
      i := n - 1;
      ChildStands(frames, places, kernel, t, level, i);
      BelowInPart(frames, places, kernel, c.value, level - 1, f);
    } else {
      i := BelowFirstInPart(frames, places, kernel, t, level, n - 1, f);
    }
  }

  /** The subtrees of different entries share no table, and none holds its parent: each
      table that can be reached has one path to it. */
  lemma SubtreesDisjoint(frames: Frames, places: map<nat, Place>, kernel: nat, t: nat, level: nat, n: nat)
    requires Standing(frames, places, kernel, t, level) && n < TABLE_SIZE
    requires Child(frames, t, level, n).Some?
    ensures level > 1 && BelowFirst(frames, t, level, n) !! Below(frames, Child(frames, t, level, n).value, level - 1)
    ensures t !in BelowFirst(frames, t, level, n) && t !in Below(frames, Child(frames, t, level, n).value, level - 1)
  {
    var c := Child(frames, t, level, n).value;
    ChildStands(frames, places, kernel, t, level, n);
    forall f | f in BelowFirst(frames, t, level, n)
      ensures f !in Below(frames, c, level - 1) && f != t
    {
      var i := BelowFirstInPart(frames, places, kernel, t, level, n, f);
      if f in Below(frames, c, level - 1) {
        BelowInPart(frames, places, kernel, c, level - 1, f);
      }
    }
    if t in Below(frames, c, level - 1) {
      BelowInPart(frames, places, kernel, c, level - 1, t);
    }
  }

  ghost function PagesOf(tables: set<nat>): set<Block> {
    set f | f in tables :: Block(f, PAGE_SIZE)
  }

  // The tables are still as they were, in pages that are in use.
  ghost predicate Held(frames: Frames, live: set<Block>, f0: Frames, tables: set<nat>) {
    forall f :: f in tables ==> f in f0 && f in frames && frames[f] == f0[f] && Block(f, PAGE_SIZE) in live
  }

  // The state after some tables have been freed.
  ghost predicate Freed(frames: Frames, live: set<Block>, tables: set<nat>, frames': Frames, live': set<Block>) {
    frames' == frames - tables && live' == live - PagesOf(tables)
  }

  lemma FreedMore(frames: Frames, live: set<Block>, a: set<nat>, f1: Frames, l1: set<Block>, b: set<nat>, f2: Frames,
      l2: set<Block>)
    requires Freed(frames, live, a, f1, l1) && Freed(f1, l1, b, f2, l2)
    ensures Freed(frames, live, a + b, f2, l2)
  {
    assert PagesOf(a + b) == PagesOf(a) + PagesOf(b);
  }

  // The tables in the order in which they are given back: those below the entries of a table,
  // entry by entry, then the table itself.
  ghost function PostOrder(frames: Frames, t: nat, level: nat): seq<nat>
    requires 1 <= level <= 4
    decreases level, TABLE_SIZE + 1
  {
    PostFirst(frames, t, level, TABLE_SIZE) + [t]
  }

  ghost function PostFirst(frames: Frames, t: nat, level: nat, n: nat): seq<nat>
    requires 1 <= level <= 4 && n <= TABLE_SIZE
    decreases level, n
  {
    if n == 0 || level == 1 then []
    else PostFirst(frames, t, level, n - 1) + PostChild(frames, t, level, n - 1)
  }

  ghost function PostChild(frames: Frames, t: nat, level: nat, i: nat): seq<nat>
    requires 2 <= level <= 4
    decreases level - 1, TABLE_SIZE + 2
  {
    var c := Child(frames, t, level, i);
    if c.Some? then PostOrder(frames, c.value, level - 1) else []
  }

  lemma NextPost(freed: seq<nat>, frames: Frames, t: nat, level: nat, i: nat)
    requires 2 <= level <= 4 && i < TABLE_SIZE
    ensures freed + PostFirst(frames, t, level, i + 1) ==
      (freed + PostFirst(frames, t, level, i)) +
      (if Child(frames, t, level, i).Some? then PostOrder(frames, Child(frames, t, level, i).value, level - 1) else [])
  {
    hide PostOrder;
    Regroup(freed, PostFirst(frames, t, level, i), PostChild(frames, t, level, i));
  }

  lemma LastPost(freed: seq<nat>, frames: Frames, t: nat, level: nat, i: nat)
    requires 1 <= level <= 4 && i <= TABLE_SIZE && (level <= 1 || i == TABLE_SIZE)
    ensures (freed + PostFirst(frames, t, level, i)) + [t] == freed + PostOrder(frames, t, level)
  {
    assert PostFirst(frames, t, level, i) == PostFirst(frames, t, level, TABLE_SIZE);
    Regroup(freed, PostFirst(frames, t, level, i), [t]);
  }

  lemma Regroup(a: seq<nat>, b: seq<nat>, c: seq<nat>)
    ensures (a + b) + c == a + (b + c)
  {
  }

  /** The nested loops of the destructor, one level a turn: the tables below, then the
      table itself. */
  method FreeTables(mem: Memory, t: nat, level: nat, ghost f0: Frames, ghost places: map<nat, Place>, ghost kernel: nat)
    requires mem.Pages() && Standing(f0, places, kernel, t, level)
    requires Held(mem.frames, mem.heap.s.live, f0, Below(f0, t, level))
    modifies mem`frames, mem`freed, mem.heap
    ensures mem.Pages()
    ensures Freed(old(mem.frames), old(mem.heap.s.live), Below(f0, t, level), mem.frames, mem.heap.s.live)
    ensures mem.freed == old(mem.freed) + PostOrder(f0, t, level)
    decreases level, 1
  {
    ghost var frames, live, freed := mem.frames, mem.heap.s.live, mem.freed;
    var i := 0;
    StartFree(mem, f0, t, level);
    hide *;
    while level > 1 && i < TABLE_SIZE
      invariant i <= TABLE_SIZE && mem.Pages()
      invariant SoFar(mem, frames, live, freed, f0, t, level, i)
      decreases TABLE_SIZE - i
    {
      FreeEntry(mem, t, level, i, f0, places, kernel, frames, live, freed);
      i := i + 1;
    }
    FreeLast(mem, t, level, i, f0, places, kernel, frames, live, freed);
  }

  // The state with the tables below the first `i` entries given back.
  ghost predicate SoFar(mem: Memory, frames: Frames, live: set<Block>, freed: seq<nat>, f0: Frames, t: nat, level: nat,
      i: nat)
    requires 1 <= level <= 4 && i <= TABLE_SIZE
    reads mem, mem.heap
  {
    && Freed(frames, live, BelowFirst(f0, t, level, i), mem.frames, mem.heap.s.live)
    && mem.freed == freed + PostFirst(f0, t, level, i)
  }

  // One entry: the table it leads to, if any, with all below it.
  method FreeEntry(mem: Memory, t: nat, level: nat, i: nat, ghost f0: Frames, ghost places: map<nat, Place>,
      ghost kernel: nat, ghost frames: Frames, ghost live: set<Block>, ghost freed: seq<nat>)
    requires mem.Pages() && Standing(f0, places, kernel, t, level) && level > 1 && i < TABLE_SIZE
    requires Held(frames, live, f0, Below(f0, t, level)) && SoFar(mem, frames, live, freed, f0, t, level, i)
    modifies mem`frames, mem`freed, mem.heap
    ensures mem.Pages() && SoFar(mem, frames, live, freed, f0, t, level, i + 1)
    decreases level, 0
  {
    hide *;
    ghost var f1, l1 := mem.frames, mem.heap.s.live;
    StandingLevel(f0, places, kernel, t, level);
    SoFarIs(mem, frames, live, freed, f0, t, level, i);
    ChildHeld(frames, live, f0, places, kernel, t, level, i, f1, l1);
    var e := mem.frames[t][i];
    if e.Present? && !(e.ps && level < 4) {
      FreeTables(mem, e.addr, level - 1, f0, places, kernel);
      FreedMore(frames, live, BelowFirst(f0, t, level, i), f1, l1, Below(f0, e.addr, level - 1), mem.frames,
        mem.heap.s.live);
    }
    NextFirst(f0, t, level, i);
    NextPost(freed, f0, t, level, i);
    assert Child(f0, t, level, i).None? ==> BelowFirst(f0, t, level, i) + {} == BelowFirst(f0, t, level, i);
    assert Child(f0, t, level, i).None? ==>
      (freed + PostFirst(f0, t, level, i)) + [] == freed + PostFirst(f0, t, level, i);
    SoFarIs(mem, frames, live, freed, f0, t, level, i + 1);
  }

  lemma StandingLevel(f0: Frames, places: map<nat, Place>, kernel: nat, t: nat, level: nat)
    requires Standing(f0, places, kernel, t, level)
    ensures 1 <= level <= 4
  {
    hide Placed, NoKernelEntry;
  }

  lemma SoFarIs(mem: Memory, frames: Frames, live: set<Block>, freed: seq<nat>, f0: Frames, t: nat, level: nat, i: nat)
    requires 1 <= level <= 4 && i <= TABLE_SIZE
    ensures SoFar(mem, frames, live, freed, f0, t, level, i) <==>
      && Freed(frames, live, BelowFirst(f0, t, level, i), mem.frames, mem.heap.s.live)
      && mem.freed == freed + PostFirst(f0, t, level, i)
  {
    hide Freed, BelowFirst, PostFirst;
  }

  // The table itself.
  method FreeLast(mem: Memory, t: nat, level: nat, i: nat, ghost f0: Frames, ghost places: map<nat, Place>,
      ghost kernel: nat, ghost frames: Frames, ghost live: set<Block>, ghost freed: seq<nat>)
    requires mem.Pages() && Standing(f0, places, kernel, t, level)
    requires i <= TABLE_SIZE && (level <= 1 || i == TABLE_SIZE)
    requires Held(frames, live, f0, Below(f0, t, level)) && SoFar(mem, frames, live, freed, f0, t, level, i)
    modifies mem`frames, mem`freed, mem.heap
    ensures mem.Pages() && Freed(frames, live, Below(f0, t, level), mem.frames, mem.heap.s.live)
    ensures mem.freed == freed + PostOrder(f0, t, level)
  {
    ghost var f1, l1 := mem.frames, mem.heap.s.live;
    BelowIs(f0, t, level) by { hide Placed; }
    hide *;
    SoFarIs(mem, frames, live, freed, f0, t, level, i);
    LastPost(freed, f0, t, level, i);
    LastHeld(frames, live, f0, places, kernel, t, level, i, f1, l1);
    mem.FreeTable(t);
    FreedOne(f1, l1, t, mem.frames, mem.heap.s.live);
    FreedMore(frames, live, BelowFirst(f0, t, level, TABLE_SIZE), f1, l1, {t}, mem.frames, mem.heap.s.live);
  }

  lemma BelowIs(f0: Frames, t: nat, level: nat)
    requires 1 <= level <= 4
    ensures Below(f0, t, level) == BelowFirst(f0, t, level, TABLE_SIZE) + {t}
  {
  }

  lemma {:induction false} FirstMonotone(f0: Frames, t: nat, level: nat, i: nat, n: nat)
    requires 1 <= level <= 4 && i <= n <= TABLE_SIZE
    ensures BelowFirst(f0, t, level, i) <= BelowFirst(f0, t, level, n)
    decreases n
  {
    if i < n {
      FirstMonotone(f0, t, level, i, n - 1);
    }
  }

  lemma ChildHeld(frames: Frames, live: set<Block>, f0: Frames, places: map<nat, Place>, kernel: nat, t: nat,
      level: nat, i: nat, f1: Frames, l1: set<Block>)
    requires Standing(f0, places, kernel, t, level) && level > 1 && i < TABLE_SIZE
    requires Held(frames, live, f0, Below(f0, t, level)) && Freed(frames, live, BelowFirst(f0, t, level, i), f1, l1)
    ensures t in f1 && |f1[t]| == TABLE_SIZE
    ensures var e := f1[t][i];
      Child(f0, t, level, i) == if e.Present? && !(e.ps && level < 4) then Some(e.addr) else None
    ensures var c := Child(f0, t, level, i);
      c.Some? ==> Standing(f0, places, kernel, c.value, level - 1) && Held(f1, l1, f0, Below(f0, c.value, level - 1))
  {
    ParentHeld(frames, live, f0, places, kernel, t, level, i, f1, l1);
    ChildStands(f0, places, kernel, t, level, i);
    var c := Child(f0, t, level, i);
    if c.Some? {
      SubtreesDisjoint(f0, places, kernel, t, level, i);
      NextFirst(f0, t, level, i);
      FirstMonotone(f0, t, level, i + 1, TABLE_SIZE);
      assert Below(f0, c.value, level - 1) <= Below(f0, t, level);
    }
  }

  lemma ParentHeld(frames: Frames, live: set<Block>, f0: Frames, places: map<nat, Place>, kernel: nat, t: nat,
      level: nat, i: nat, f1: Frames, l1: set<Block>)
    requires Standing(f0, places, kernel, t, level) && i <= TABLE_SIZE
    requires Held(frames, live, f0, Below(f0, t, level)) && Freed(frames, live, BelowFirst(f0, t, level, i), f1, l1)
    ensures t in f1 && f1[t] == f0[t] && Block(t, PAGE_SIZE) in l1
  {
    assert t in Below(f0, t, level);
    if t in BelowFirst(f0, t, level, i) {
      var j := BelowFirstInPart(f0, places, kernel, t, level, i, t);
    }
  }

  lemma LastHeld(frames: Frames, live: set<Block>, f0: Frames, places: map<nat, Place>, kernel: nat, t: nat,
      level: nat, i: nat, f1: Frames, l1: set<Block>)
    requires Standing(f0, places, kernel, t, level) && i <= TABLE_SIZE && (level <= 1 || i == TABLE_SIZE)
    requires Held(frames, live, f0, Below(f0, t, level)) && Freed(frames, live, BelowFirst(f0, t, level, i), f1, l1)
    ensures Block(t, PAGE_SIZE) in l1
    ensures Freed(frames, live, BelowFirst(f0, t, level, TABLE_SIZE), f1, l1)
  {
    ParentHeld(frames, live, f0, places, kernel, t, level, i, f1, l1);
  }

  lemma StartFree(mem: Memory, f0: Frames, t: nat, level: nat)
    requires 1 <= level <= 4
    ensures SoFar(mem, mem.frames, mem.heap.s.live, mem.freed, f0, t, level, 0)
  {
    assert PostFirst(f0, t, level, 0) == [];
  }

  lemma NextFirst(f0: Frames, t: nat, level: nat, i: nat)
    requires 2 <= level <= 4 && i < TABLE_SIZE
    ensures BelowFirst(f0, t, level, i + 1) == BelowFirst(f0, t, level, i) +
      (if Child(f0, t, level, i).Some? then Below(f0, Child(f0, t, level, i).value, level - 1) else {})
  {
  }

  lemma FreedOne(f1: Frames, l1: set<Block>, t: nat, f2: Frames, l2: set<Block>)
    requires f2 == f1 - {t} && l2 == l1 - {Block(t, PAGE_SIZE)}
    ensures Freed(f1, l1, {t}, f2, l2)
  {
    assert PagesOf({t}) == {Block(t, PAGE_SIZE)};
  }

  // ----- the order -----

  // The child of the table at place `k` of a sequence comes before it.
  ghost predicate Earlier(s: seq<nat>, k: nat, c: nat) {
    exists j :: 0 <= j < k && j < |s| && s[j] == c
  }

  lemma EarlierLeft(a: seq<nat>, b: seq<nat>, k: nat, more: nat, c: nat)
    requires Earlier(a, k, c)
    ensures Earlier(a + b, k + more, c)
  {
    var j :| 0 <= j < k && j < |a| && a[j] == c;
    assert (a + b)[j] == c;
  }

  lemma EarlierRight(a: seq<nat>, b: seq<nat>, k: nat, c: nat)
    requires Earlier(b, k, c)
    ensures Earlier(a + b, |a| + k, c)
  {
    var j :| 0 <= j < k && j < |b| && b[j] == c;
    assert (a + b)[|a| + j] == c;
  }

  // The table at place `k` of a sequence comes after those that its entry `i` leads to.
  ghost predicate AfterChild(frames: Frames, places: map<nat, Place>, s: seq<nat>, k: nat, i: nat)
    requires k < |s|
  {
    && s[k] in places && 1 <= places[s[k]].level <= 4
    && var c := Child(frames, s[k], places[s[k]].level, i);
       c.Some? ==> Earlier(s, k, c.value)
  }

  lemma AfterLeft(frames: Frames, places: map<nat, Place>, a: seq<nat>, b: seq<nat>, k: nat, i: nat)
    requires k < |a| && AfterChild(frames, places, a, k, i)
    ensures AfterChild(frames, places, a + b, k, i)
  {
    var c := Child(frames, a[k], places[a[k]].level, i);
    hide Earlier, Child;
    if c.Some? {
      EarlierLeft(a, b, k, 0, c.value);
    }
  }

  lemma AfterRight(frames: Frames, places: map<nat, Place>, a: seq<nat>, b: seq<nat>, k: nat, i: nat)
    requires k < |b| && AfterChild(frames, places, b, k, i)
    ensures AfterChild(frames, places, a + b, |a| + k, i)
  {
    var c := Child(frames, b[k], places[b[k]].level, i);
    hide Earlier, Child;
    if c.Some? {
      EarlierRight(a, b, k, c.value);
    }
  }

  /** Children come before their parents: when a table is given back, every table that its
      entries lead to has been given back already. */
  lemma {:induction false} ChildrenFirst(frames: Frames, places: map<nat, Place>, kernel: nat, t: nat, level: nat,
      k: nat, i: nat)
    requires Standing(frames, places, kernel, t, level) && k < |PostOrder(frames, t, level)| && i < TABLE_SIZE
    ensures AfterChild(frames, places, PostOrder(frames, t, level), k, i)
    decreases level, TABLE_SIZE + 1
  {
    var first := PostFirst(frames, t, level, TABLE_SIZE);
    assert PostOrder(frames, t, level) == first + [t];
    assert t in places && places[t].level == level;
    hide PostOrder, PostFirst, Earlier, Child, Standing;
    if k < |first| {
      FirstChildrenFirst(frames, places, kernel, t, level, TABLE_SIZE, k, i);
      AfterLeft(frames, places, first, [t], k, i);
    } else if Child(frames, t, level, i).Some? {
      ChildIn(frames, t, level, TABLE_SIZE, i);
      EarlierLeft(first, [t], |first|, 0, Child(frames, t, level, i).value);
    }
  }

  lemma {:induction false} FirstChildrenFirst(frames: Frames, places: map<nat, Place>, kernel: nat, t: nat, level: nat,
      n: nat, k: nat, i: nat)
    requires Standing(frames, places, kernel, t, level) && n <= TABLE_SIZE
    requires k < |PostFirst(frames, t, level, n)| && i < TABLE_SIZE
    ensures AfterChild(frames, places, PostFirst(frames, t, level, n), k, i)
    decreases level, n
  {
    hide PostFirst, PostOrder, PostChild, Child, Earlier, Placed;
    FirstIs(frames, t, level, n);
    hide *;
    var before, seg := PostFirst(frames, t, level, n - 1), PostChild(frames, t, level, n - 1);
    var c := Child(frames, t, level, n - 1);
    if k < |before| {
      FirstChildrenFirst(frames, places, kernel, t, level, n - 1, k, i);
      AfterLeft(frames, places, before, seg, k, i);
    } else {
      ChildStands(frames, places, kernel, t, level, n - 1);
      ChildrenFirst(frames, places, kernel, c.value, level - 1, k - |before|, i);
      AfterRight(frames, places, before, seg, k - |before|, i);
    }
  }

  lemma FirstIs(frames: Frames, t: nat, level: nat, n: nat)
    requires 1 <= level <= 4 && n <= TABLE_SIZE && PostFirst(frames, t, level, n) != []
    ensures n > 0 && level > 1
    ensures PostFirst(frames, t, level, n) == PostFirst(frames, t, level, n - 1) + PostChild(frames, t, level, n - 1)
    ensures var c := Child(frames, t, level, n - 1);
      PostChild(frames, t, level, n - 1) == if c.Some? then PostOrder(frames, c.value, level - 1) else []
  {
    hide PostOrder;
  }

  lemma {:induction false} ChildIn(frames: Frames, t: nat, level: nat, n: nat, i: nat)
    requires 1 <= level <= 4 && i < n <= TABLE_SIZE && Child(frames, t, level, i).Some?
    ensures Earlier(PostFirst(frames, t, level, n), |PostFirst(frames, t, level, n)|, Child(frames, t, level, i).value)
    decreases n
  {
    var c := Child(frames, t, level, i).value;
    var before, seg := PostFirst(frames, t, level, n - 1), PostChild(frames, t, level, n - 1);
    assert PostFirst(frames, t, level, n) == before + seg;
    if i == n - 1 {
      assert seg == PostOrder(frames, c, level - 1);
      assert seg == PostFirst(frames, c, level - 1, TABLE_SIZE) + [c];
      assert seg[|seg| - 1] == c;
      hide PostFirst, PostChild, Child;
      EarlierRight(before, seg, |seg|, c);
    } else {
      ChildIn(frames, t, level, n - 1, i);
      hide PostFirst, PostChild, Child, Earlier;
      EarlierLeft(before, seg, |before|, |seg|, c);
    }
  }

  // ----- a whole address space -----

  // The tables of an address space, without what the kernel's top entry leads to.
  ghost function Reachable(frames: Frames, pml4: nat, isKernel: bool): set<nat>
    requires pml4 in frames && |frames[pml4]| == TABLE_SIZE
  {
    Below(if isKernel then frames else SetEntry(frames, pml4, KERNEL_PML4, Absent), pml4, 4)
  }

  /** The destructor: gives back exactly the pages of the tables that can be reached, all
      of them its own; everyone else's tables stay as they are. */
  method Destroy(space: AddressSpace.AddressSpace)
    requires space.Valid()
    requires space.isKernel ==> forall t :: t in space.mem.places ==> space.mem.places[t].owner == space.pml4
    modifies space.mem`frames, space.mem`places, space.mem`freed, space.mem.heap
    ensures space.mem.Valid()
    ensures space.pml4 in old(space.mem.frames) && |old(space.mem.frames)[space.pml4]| == TABLE_SIZE
    ensures var reach := Reachable(old(space.mem.frames), space.pml4, space.isKernel);
      && space.mem.heap.s.live == old(space.mem.heap.s.live) - PagesOf(reach)
      && forall t :: t in reach ==> t in old(space.mem.places) && old(space.mem.places)[t].owner == space.pml4
    ensures space.mem.places == WithoutOwner(old(space.mem.places), space.pml4)
    ensures KeepsOthers(old(space.mem.frames), old(space.mem.places), space.mem.frames, space.pml4)
  {
    var mem, pml4 := space.mem, space.pml4;
    ghost var f0, p0, kernel := mem.frames, mem.places, mem.kernel;
    SpaceFacts(space);
    hide *;
    if !space.isKernel {
      // The destructor checks that the copied entry is still the kernel's.
      assert mem.frames[pml4][KERNEL_PML4] == mem.frames[kernel][KERNEL_PML4];
      PlacedAfterSet(f0, p0, kernel, pml4, KERNEL_PML4, Absent);
      mem.frames := SetEntry(mem.frames, pml4, KERNEL_PML4, Absent);
      SetIs(f0, pml4, KERNEL_PML4);
    }
    FreeOwn(mem, pml4, space.isKernel, f0);
  }

  // The base class's destructor; `f0` are the tables before the kernel's entry was taken out.
  method FreeOwn(mem: Memory, pml4: nat, ghost isKernel: bool, ghost f0: Frames)
    requires mem.Pages() && Placed(f0, mem.places, mem.kernel) && Placed(mem.frames, mem.places, mem.kernel)
    requires Backed(mem.heap.s, mem.places)
    requires pml4 in mem.places && mem.places[pml4] == Place(4, 0, pml4) && isKernel == (pml4 == mem.kernel)
    requires pml4 in f0 && |f0[pml4]| == TABLE_SIZE
    requires mem.frames == if isKernel then f0 else SetEntry(f0, pml4, KERNEL_PML4, Absent)
    requires isKernel ==> forall t :: t in mem.places ==> mem.places[t].owner == pml4
    modifies mem`frames, mem`places, mem`freed, mem.heap
    ensures mem.Valid() && mem.places == WithoutOwner(old(mem.places), pml4)
    ensures var reach := Reachable(f0, pml4, isKernel);
      && mem.heap.s.live == old(mem.heap.s.live) - PagesOf(reach)
      && forall t :: t in reach ==> t in old(mem.places) && old(mem.places)[t].owner == pml4
    ensures KeepsOthers(f0, old(mem.places), mem.frames, pml4)
  {
    ghost var f1, p0, live := mem.frames, mem.places, mem.heap.s.live;
    OwnReach(f0, f1, p0, mem.kernel, pml4, isKernel, mem.heap.s);
    assert forall t :: t in p0 ==> Block(t, PAGE_SIZE) in live;
    assert p0[pml4].owner == pml4;
    hide *;
    FreeTables(mem, pml4, 4, f1, p0, mem.kernel);
    mem.places := WithoutOwner(mem.places, pml4);
    FreedIs(f1, live, Below(f1, pml4, 4), mem.frames, mem.heap.s.live);
    OthersStand(f0, f1, p0, mem.kernel, pml4, isKernel, Below(f1, pml4, 4), live, mem.frames, mem.heap.s);
    ValidFrom(mem);
  }

  lemma FreedIs(frames: Frames, live: set<Block>, tables: set<nat>, frames': Frames, live': set<Block>)
    requires Freed(frames, live, tables, frames', live')
    ensures live' == live - PagesOf(tables)
  {
  }

  lemma SetIs(frames: Frames, t: nat, i: nat)
    requires t in frames && |frames[t]| == TABLE_SIZE && i < TABLE_SIZE
    ensures t in SetEntry(frames, t, i, Absent) && |SetEntry(frames, t, i, Absent)[t]| == TABLE_SIZE
  {
  }

  lemma SpaceFacts(space: AddressSpace.AddressSpace)
    requires space.Valid()
    ensures var mem, pml4 := space.mem, space.pml4;
      && mem.Pages() && Placed(mem.frames, mem.places, mem.kernel) && Backed(mem.heap.s, mem.places)
      && pml4 in mem.places && mem.places[pml4] == Place(4, 0, pml4) && space.isKernel == (pml4 == mem.kernel)
      && pml4 in mem.frames && |mem.frames[pml4]| == TABLE_SIZE
      && EntryOk(mem.places, mem.kernel, pml4, KERNEL_PML4, Absent)
      && (!space.isKernel ==> mem.kernel in mem.frames && |mem.frames[mem.kernel]| == TABLE_SIZE)
      && (!space.isKernel ==> mem.frames[pml4][KERNEL_PML4] == mem.frames[mem.kernel][KERNEL_PML4])
  {
    assert TableOk(space.mem.frames, space.mem.places, space.mem.kernel, space.pml4);
  }

  lemma ValidFrom(mem: Memory)
    requires mem.Pages() && Placed(mem.frames, mem.places, mem.kernel) && Backed(mem.heap.s, mem.places)
    ensures mem.Valid()
  {
  }

  lemma OthersStand(f0: Frames, f1: Frames, places: map<nat, Place>, kernel: nat, pml4: nat, isKernel: bool,
      reach: set<nat>, live: set<Block>, f2: Frames, s2: HeapState)
    requires Placed(f0, places, kernel) && pml4 in places && pml4 in f0 && |f0[pml4]| == TABLE_SIZE
    requires isKernel == (pml4 == kernel)
    requires places[pml4].owner == pml4
    requires f1 == if isKernel then f0 else SetEntry(f0, pml4, KERNEL_PML4, Absent)
    requires forall t :: t in places ==> Block(t, PAGE_SIZE) in live
    requires forall t :: t in reach ==> t in places && places[t].owner == pml4
    requires isKernel ==> forall t :: t in places ==> places[t].owner == pml4
    requires Freed(f1, live, reach, f2, s2.live)
    ensures var p2 := WithoutOwner(places, pml4);
      Placed(f2, p2, kernel) && Backed(s2, p2) && KeepsOthers(f0, places, f2, pml4)
  {
    var p2 := WithoutOwner(places, pml4);
    forall t | t in places && places[t].owner != pml4
      ensures t in f0 && t in f2 && f2[t] == f0[t] && TableOk(f2, p2, kernel, t)
    {
      assert TableOk(f0, places, kernel, t);
      forall i | 0 <= i < TABLE_SIZE
        ensures EntryOk(p2, kernel, t, i, f0[t][i])
      {
        assert EntryOk(places, kernel, t, i, f0[t][i]);
      }
    }
    forall t | t in p2
      ensures Block(t, PAGE_SIZE) in s2.live
    {
      assert Block(t, PAGE_SIZE) !in PagesOf(reach);
    }
  }

  lemma OwnReach(f0: Frames, f1: Frames, places: map<nat, Place>, kernel: nat, pml4: nat, isKernel: bool, s: HeapState)
    requires Placed(f0, places, kernel) && Placed(f1, places, kernel) && Backed(s, places)
    requires pml4 in places && places[pml4] == Place(4, 0, pml4) && isKernel == (pml4 == kernel)
    requires pml4 in f0 && |f0[pml4]| == TABLE_SIZE
    requires f1 == if isKernel then f0 else SetEntry(f0, pml4, KERNEL_PML4, Absent)
    ensures Standing(f1, places, kernel, pml4, 4) && Held(f1, s.live, f1, Below(f1, pml4, 4))
    ensures Reachable(f0, pml4, isKernel) == Below(f1, pml4, 4)
    ensures forall t :: t in Below(f1, pml4, 4) ==> t in places && places[t].owner == pml4
  {
    forall t | t in Below(f1, pml4, 4)
      ensures t in places && places[t].owner == pml4 && t in f1 && Block(t, PAGE_SIZE) in s.live
    {
      BelowInPart(f1, places, kernel, pml4, 4, t);
      assert TableOk(f1, places, kernel, t);
    }
  }
}
