/** What a page of memory permits: the rights along the whole walk, every entry met counting. */
module Rights {
  import opened Options
  import opened MemoryTypes
  import opened PageTables
  import opened PageWalks
  import opened Translation
  import opened PageRuns
  import opened Evolution
  import opened Mapping
  import EntryBits

  // The entries that the walk of `v` meets, from a table down to the final one.
  function Met(frames: Frames, t: nat, level: nat, v: nat): seq<Entry>
    requires 1 <= level <= 4
    decreases level
  {
    if t !in frames || |frames[t]| != TABLE_SIZE then []
    else
      var e := frames[t][Index(level, v)];
      if e.Absent? || IsLeaf(level, e) || level == 1 then [e]
      else [e] + Met(frames, e.addr, level - 1, v)
  }

  predicate AllPresent(met: seq<Entry>) {
    forall e :: e in met ==> e.Present?
  }

  predicate Writable(met: seq<Entry>)
    requires AllPresent(met)
  {
    forall e :: e in met ==> e.flags.write
  }

  predicate OpenToUsers(met: seq<Entry>)
    requires AllPresent(met)
  {
    forall e :: e in met ==> e.flags.user
  }

  predicate Executable(met: seq<Entry>)
    requires AllPresent(met)
  {
    forall e :: e in met ==> !e.flags.nx
  }

  // The memory at `v` may be used as its type says, and no otherwise: two tables lead to a page
  // of 1G, three to one of 2M, and four to one of 4K.
  predicate Allows(frames: Frames, root: nat, kind: MemoryType, v: nat) {
    var met := Met(frames, root, 4, v);
    && met != [] && AllPresent(met)
    && |met| == (if kind.ps1gb then 2 else if kind.ps2mb then 3 else 4)
    && (Writable(met) <==> kind.write)
    && (OpenToUsers(met) <==> kind.user)
    && (Executable(met) <==> kind.execute)
    && (met[|met| - 1].flags.pcd <==> kind.cacheDisable)
    && (met[|met| - 1].flags.pwt <==> kind.cacheDisable)
  }

  /** The rights that a walk comes to are those that every entry met grants, and the caching is
      that of the final entry, whose page the address is in. */
  lemma {:induction false} WalkRights(frames: Frames, t: nat, level: nat, v: nat)
    requires 1 <= level <= 4 && Walk(frames, t, level, v).Some?
    ensures var h, met := Walk(frames, t, level, v).value, Met(frames, t, level, v);
      && met != [] && AllPresent(met) && |met| + h.level == level + 1
      && (h.flags.write <==> Writable(met)) && (h.flags.user <==> OpenToUsers(met))
      && (!h.flags.nx <==> Executable(met))
      && h.flags.pcd == met[|met| - 1].flags.pcd && h.flags.pwt == met[|met| - 1].flags.pwt
    decreases level
  {
    var e := frames[t][Index(level, v)];
    hide Index, LeafHit;
    if !IsLeaf(level, e) {
      WalkRights(frames, e.addr, level - 1, v);
      var below := Met(frames, e.addr, level - 1, v);
      assert Met(frames, t, level, v) == [e] + below;
      hide Walk, Met, Index, LeafHit;
      assert forall x :: x in [e] + below <==> x == e || x in below;
    }
  }

  // What leads to a final entry of a type permits what the type says.
  lemma KindAllows(frames: Frames, root: nat, kind: MemoryType, h: Hit, v: nat)
    requires Walk(frames, root, 4, v) == Some(h) && h.flags == LeafFlags(kind) && h.level == PageLevel(kind)
    ensures Allows(frames, root, kind, v)
  {
    WalkRights(frames, root, 4, v);
    hide Walk, Met;
  }

  /** What is translated as a mapping says permits what the type of the mapping says. */
  lemma TranslatedAllows(frames: Frames, root: nat, maps: map<Item, nat>, m: Item, v: nat)
    requires Translated(frames, root, maps, v) && m in maps && m.Covers(v)
    ensures Allows(frames, root, m.kind, v)
  {
    KindAllows(frames, root, m.kind, HitOf(m, maps[m], v), v);
    hide Walk, Allows;
  }

  // ----- of a range, whatever it is -----

  // Every address of the range permits what the type says.
  ghost predicate Granted(frames: Frames, root: nat, item: Item) {
    forall v: nat :: item.Covers(v) ==> Allows(frames, root, item.kind, v)
  }

  // Every address of the range leads to its place in physical memory.
  ghost predicate Leads(frames: Frames, root: nat, item: Item, phys: nat) {
    forall v: nat :: item.Covers(v) ==>
      Walk(frames, root, 4, v).Some? && Walk(frames, root, 4, v).value.phys == phys + (v - item.addr)
  }

  lemma TranslatesLeads(frames: Frames, root: nat, isKernel: bool, maps: map<Item, nat>, item: Item)
    requires Translates(frames, root, isKernel, maps) && item in maps && InPart(isKernel, item.addr, item.length)
    ensures Leads(frames, root, item, maps[item])
  {
    forall v: nat | item.Covers(v)
      ensures Walk(frames, root, 4, v).Some? && Walk(frames, root, 4, v).value.phys == maps[item] + (v - item.addr)
    {
      OwnInSlot(isKernel, v);
      assert Translated(frames, root, maps, v);
    }
    hide Walk;
  }

  // An address of the range is in one of its pages.
  lemma CoveredAhead(item: Item, v: nat)
    requires item.addr % PageBytes(item.kind) == 0 && item.length % PageBytes(item.kind) == 0 && item.Covers(v)
    ensures Ahead(PageLevel(item.kind), item.addr, v) < PageCount(item)
  {
    var level := PageLevel(item.kind);
    hide Ahead, Span;
    AheadWithin(level, item.addr, v);
    WithinPages(level, item.addr, item.length, v);
  }

  // Not more pages ahead than there are between the addresses.
  lemma AheadWithin(level: nat, a: nat, v: nat)
    requires 1 <= level <= 3 && a <= v
    ensures Ahead(level, a, v) <= v / Span(level) - a / Span(level)
  {
    hide *;
    AheadIs(level, a, v);
    RoundPages(level, a);
    RoundPages(level, v);
    LessPages(level, a, v);
    RoundWithin(Pages(level), a / Span(level), v / Span(level));
  }

  lemma AheadIs(level: nat, a: nat, v: nat)
    requires 1 <= level <= 3
    ensures Pages(level) > 0
    ensures Ahead(level, a, v) == Round(Pages(level), Page(level, a), Page(level, v))
  {
    hide Page;
  }

  lemma LessPages(level: nat, a: nat, v: nat)
    requires 1 <= level <= 3 && a <= v
    ensures a / Span(level) <= v / Span(level)
  {
  }

  // From `p` on to `q`, or round by way of `m`.
  function Round(m: nat, p: nat, q: nat): int {
    if p <= q then q - p else q + m - p
  }

  lemma RoundPages(level: nat, v: nat)
    requires 1 <= level <= 3
    ensures Pages(level) > 0 && Page(level, v) == Mod(v / Span(level), Pages(level))
  {
    var q, w := v / SPAN5, v % SPAN5;
    assert v == q * 0x1_0000_0000_0000 + w;
    if level == 1 {
      Low1(q, w);
      Turn1(q, w / 0x1000);
    } else if level == 2 {
      Low2(q, w);
      Turn2(q, w / 0x20_0000);
    } else {
      Low3(q, w);
      Turn3(q, w / 0x4000_0000);
    }
  }

  lemma Turn1(q: nat, r: nat)
    requires r < 0x10_0000_0000
    ensures (r + q * 0x10_0000_0000) % 0x10_0000_0000 == r
  {
  }

  lemma Turn2(q: nat, r: nat)
    requires r < 0x800_0000
    ensures (r + q * 0x800_0000) % 0x800_0000 == r
  {
  }

  lemma Turn3(q: nat, r: nat)
    requires r < 0x4_0000
    ensures (r + q * 0x4_0000) % 0x4_0000 == r
  {
  }

  function Mod(x: nat, m: nat): nat
    requires m > 0
  {
    x % m
  }

  lemma RoundWithin(m: nat, p: nat, q: nat)
    requires m > 0 && p <= q
    ensures Round(m, Mod(p, m), Mod(q, m)) <= q - p
  {
    var turns := q / m - p / m;
    assert q - p == m * turns + (q % m - p % m);
    Ordered(m, -turns);
    Ordered(m, turns);
  }

  lemma Ordered(m: nat, n: int)
    ensures n >= 1 ==> m * n >= m && m + m * -n <= 0
  {
    if n >= 1 {
      TimesAtLeast(m, n);
      assert m * -n == -(m * n);
    }
  }

  lemma {:induction false} TimesAtLeast(m: nat, n: int)
    requires n >= 1
    ensures m * n >= m
    decreases n
  {
    if n > 1 {
      TimesAtLeast(m, n - 1);
      assert m * n == m * (n - 1) + m;
    }
  }

  lemma WithinPages(level: nat, addr: nat, length: nat, v: nat)
    requires 1 <= level <= 3 && addr % Span(level) == 0 && length % Span(level) == 0 && addr <= v < addr + length
    ensures v / Span(level) - addr / Span(level) < length / Span(level)
  {
  }

  /** Wherever a range of pages has been mapped, and however long it is: the rights along the
      whole walk of every address in it are those of its type. */
  lemma MappedGrants(f0: Frames, p0: map<nat, Place>, f: Frames, kernel: nat, root: nat, item: Item, phys: nat)
    requires Rooted(f0, p0, kernel, root) && Added(f0, p0, f, kernel, root, item, phys, PageCount(item))
    requires item.addr % PageBytes(item.kind) == 0 && item.length % PageBytes(item.kind) == 0
    ensures Granted(f, root, item)
  {
    hide *;
    forall v: nat | item.Covers(v)
      ensures Allows(f, root, item.kind, v)
    {
      AddedOne(f0, p0, f, kernel, root, root, item, phys, PageCount(item), v);
      OnesOwn(f0, kernel, root, v);
      CoveredAhead(item, v);
      var h := PageAt(f0, f, kernel, root, item, phys, v);
      KindAllows(f, root, item.kind, h, v);
    }
    GrantedAll(f, root, item);
  }

  lemma PageAt(f0: Frames, f: Frames, kernel: nat, root: nat, item: Item, phys: nat, v: nat) returns (h: Hit)
    requires AddedAt(f0, f, kernel, root, root, item, phys, PageCount(item), v) && Seen(f0, kernel, root, root, v)
    requires Ahead(PageLevel(item.kind), item.addr, v) < PageCount(item)
    ensures Walk(f, root, 4, v) == Some(h) && h.flags == LeafFlags(item.kind) && h.level == PageLevel(item.kind)
  {
    hide Walk, Ahead, LastTurn, Seen, PageCount, LeafFlags;
    h := PageHit(item, phys, LastTurn(PageLevel(item.kind), Ahead(PageLevel(item.kind), item.addr, v), PageCount(item)),
      v);
  }

  lemma GrantedAll(f: Frames, root: nat, item: Item)
    requires forall v: nat :: item.Covers(v) ==> Allows(f, root, item.kind, v)
    ensures Granted(f, root, item)
  {
    hide Allows;
  }

  /** A table that was allocated for memory of one type serves memory of another exactly when
      both are open to users or neither is: what may be written or executed, and how it is
      cached, is for the final entries alone. */
  lemma TableServes(a: MemoryType, b: MemoryType, phys: bv64, used: bv64)
    requires EntryBits.Aligned(phys) && EntryBits.UsageBits(used)
    ensures var there := EntryBits.Word(phys, EntryBits.Pack(TableFlags(a), false), used);
      EntryBits.Checked(there) == EntryBits.Checked(EntryBits.Pack(TableFlags(b), false)) <==> a.user == b.user
    ensures TableFlags(a) == Flags(true, a.user, false, false, false)
  {
    EntryBits.CompatibleExactly(phys, TableFlags(a), false, used, TableFlags(b));
    hide EntryBits.Checked, EntryBits.Word, EntryBits.Pack;
  }
}
