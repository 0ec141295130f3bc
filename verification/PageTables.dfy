/** Four-level page tables as a map from frame address to table, and the walk that
    the processor and `virt_to_phys` make through them. */
module PageTables {
  import opened Options
  import opened MemoryTypes

  const TABLE_SIZE: nat := 512
  const PAGE_SIZE: nat := 0x1000
  // Addresses are translated by their low 48 bits.
  const SPAN5: nat := 0x1_0000_0000_0000

  // The permission and caching bits of an entry.
  datatype Flags = Flags(write: bool, user: bool, pwt: bool, pcd: bool, nx: bool)

  // A table entry: zero, or an address with the present bit, the page-size bit and flags.
  datatype Entry = Absent | Present(addr: nat, ps: bool, flags: Flags)

  type Frames = map<nat, seq<Entry>>

  // What one entry of a table at a level maps, in bytes; one more level up for a table.
  function Span(level: nat): (s: nat)
    requires 1 <= level <= 5
    ensures s > 0
  {
    if level == 1 then 0x1000
    else if level == 2 then 0x20_0000
    else if level == 3 then 0x4000_0000
    else if level == 4 then 0x80_0000_0000
    else SPAN5
  }

  // `pte`, `pde`, `pdpe` and `pml4e` of an address.
  function Index(level: nat, v: nat): (i: nat)
    requires 1 <= level <= 4
    ensures i < TABLE_SIZE
  {
    v / Span(level) % TABLE_SIZE
  }

  // An entry that ends the walk: any at the lowest level, else one with the page-size
  // bit. The bit means nothing at the top level.
  predicate IsLeaf(level: nat, e: Entry)
    requires e.Present?
  {
    level == 1 || (e.ps && level < 4)
  }

  datatype Hit = Hit(phys: nat, level: nat, flags: Flags)

  function LeafHit(level: nat, e: Entry, v: nat): Hit
    requires 1 <= level <= 4 && e.Present?
  {
    Hit(e.addr / Span(level) * Span(level) + v % Span(level), level, e.flags)
  }

  // What a table's entry leaves of the rights below it: the processor lets through what every
  // entry on the way allows, and takes the caching from the last.
  function Through(table: Flags, below: Flags): Flags {
    Flags(table.write && below.write, table.user && below.user, below.pwt, below.pcd, table.nx || below.nx)
  }

  function Under(table: Flags, r: Option<Hit>): Option<Hit> {
    if r.None? then None else Some(r.value.(flags := Through(table, r.value.flags)))
  }

  // `virt_to_phys`, from a table at a level, with the rights along the way: None where it meets
  // an entry that is not present.
  function Walk(frames: Frames, t: nat, level: nat, v: nat): Option<Hit>
    requires 1 <= level <= 4
    decreases level
  {
    if t !in frames || |frames[t]| != TABLE_SIZE then None
    else
      var e := frames[t][Index(level, v)];
      if e.Absent? then None
      else if IsLeaf(level, e) then Some(LeafHit(level, e, v))
      else if level == 1 then None
      else Under(e.flags, Walk(frames, e.addr, level - 1, v))
  }

  // Where a table stands: its level, which part of the address space it serves, and the
  // root of the address space it was allocated for.
  datatype Place = Place(level: nat, prefix: nat, owner: nat)

  // The part of the address space that a table at a level needs to serve for `v`.
  function Prefix(level: nat, v: nat): nat
    requires 1 <= level <= 4
  {
    v % SPAN5 / Span(level + 1)
  }

  ghost predicate EntryOk(places: map<nat, Place>, kernel: nat, t: nat, i: nat, e: Entry)
    requires t in places
  {
    var l := places[t];
    && (e.Present? && e.ps ==> l.level == 2 || l.level == 3)
    && (e.Present? && !e.ps && l.level > 1 ==>
      && e.addr in places
      && places[e.addr].level == l.level - 1
      && places[e.addr].prefix == l.prefix * TABLE_SIZE + i
      && (places[e.addr].owner == l.owner || (l.level == 4 && i == TABLE_SIZE - 1 && places[e.addr].owner == kernel)))
  }

  ghost predicate TableOk(frames: Frames, places: map<nat, Place>, kernel: nat, t: nat)
    requires t in places
  {
    && t in frames && |frames[t]| == TABLE_SIZE
    && 1 <= places[t].level <= 4
    && (places[t].level == 4 ==> places[t].prefix == 0)
    && forall i :: 0 <= i < TABLE_SIZE ==> EntryOk(places, kernel, t, i, frames[t][i])
  }

  // Every table has a place that all pointers to it respect.
  ghost predicate Placed(frames: Frames, places: map<nat, Place>, kernel: nat) {
    forall t :: t in places ==> TableOk(frames, places, kernel, t)
  }

  // ----- arithmetic of prefixes -----

  // The high bits of an address do not reach the indices.
  lemma IndexOfLow(level: nat, v: nat)
    requires 1 <= level <= 4
    ensures Index(level, v) == v % SPAN5 / Span(level) % TABLE_SIZE
  {
    var q, w := v / SPAN5, v % SPAN5;
    assert v == q * 0x1_0000_0000_0000 + w;
    if level == 1 {
      Low1(q, w);
      DropTables(w / 0x1000, q * 0x800_0000);
    } else if level == 2 {
      Low2(q, w);
      DropTables(w / 0x20_0000, q * 0x4_0000);
    } else if level == 3 {
      Low3(q, w);
      DropTables(w / 0x4000_0000, q * 0x200);
    } else {
      Low4(q, w);
      DropTables(w / 0x80_0000_0000, q);
    }
  }

  lemma DropTables(x: nat, y: nat)
    ensures (x + y * 512) % 512 == x % 512
  {
  }

  lemma Low1(q: nat, w: nat)
    ensures (q * 0x1_0000_0000_0000 + w) / 0x1000 == w / 0x1000 + q * 0x800_0000 * 512
  {
  }

  lemma Low2(q: nat, w: nat)
    ensures (q * 0x1_0000_0000_0000 + w) / 0x20_0000 == w / 0x20_0000 + q * 0x4_0000 * 512
  {
  }

  lemma Low3(q: nat, w: nat)
    ensures (q * 0x1_0000_0000_0000 + w) / 0x4000_0000 == w / 0x4000_0000 + q * 0x200 * 512
  {
  }

  lemma Low4(q: nat, w: nat)
    ensures (q * 0x1_0000_0000_0000 + w) / 0x80_0000_0000 == w / 0x80_0000_0000 + q * 512
  {
  }

  lemma Split512(w: nat, level: nat)
    requires 1 <= level <= 4 && w < SPAN5
    ensures w / Span(level) == w / Span(level + 1) * TABLE_SIZE + w / Span(level) % TABLE_SIZE
  {
    if level == 1 {
      assert w / 0x1000 / 512 == w / 0x20_0000;
    } else if level == 2 {
      assert w / 0x20_0000 / 512 == w / 0x4000_0000;
    } else if level == 3 {
      assert w / 0x4000_0000 / 512 == w / 0x80_0000_0000;
    }
  }

  // The page of `v` at a level: which entry, of all tables at that level, maps it.
  function Page(level: nat, v: nat): nat
    requires 1 <= level <= 4
  {
    v % SPAN5 / Span(level)
  }

  lemma PageIs(level: nat, v: nat)
    requires 1 <= level <= 4
    ensures Page(level, v) == Prefix(level, v) * TABLE_SIZE + Index(level, v)
  {
    IndexOfLow(level, v);
    Split512(v % SPAN5, level);
  }

  lemma PrefixStep(level: nat, v: nat)
    requires 2 <= level <= 4
    ensures Prefix(level - 1, v) == Prefix(level, v) * TABLE_SIZE + Index(level, v)
  {
    PageIs(level, v);
  }

  lemma SamePageAbove(level: nat, v: nat, w: nat)
    requires 1 <= level <= 3 && Page(level, v) == Page(level, w)
    ensures Page(level + 1, v) == Page(level + 1, w)
    ensures Prefix(level, v) == Prefix(level, w) && Index(level, v) == Index(level, w)
  {
    PageIs(level, v);
    PageIs(level, w);
  }
}
