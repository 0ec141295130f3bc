/** What the page tables of an address space are for: the plain list of mappings. */
module Translation {
  import opened Options
  import opened MemoryTypes
  import opened PageTables
  import opened PageWalks

  const HALF: nat := 0x8000_0000_0000
  const KERNEL_PML4: nat := 511

  // Bits 48 to 63 repeat bit 47.
  predicate Canonical(v: nat) {
    v < HALF || WORD - HALF <= v < WORD
  }

  lemma CanonicalPage(level: nat, v: nat, w: nat)
    requires 1 <= level <= 3 && Canonical(v) && Canonical(w) && w % Span(level) == 0
    ensures Page(level, v) == Page(level, w) <==> w <= v < w + Span(level)
  {
    LowBits(v);
    LowBits(w);
    assert v % SPAN5 < SPAN5 && w % SPAN5 < SPAN5;
    hide *;
    LowAligned(level, w);
    PageLow(level, v);
    PageLow(level, w);
    LowPage(level, v % SPAN5, w % SPAN5);
    SameRange(v, w, Span(level));
  }

  // Seen from the low bits, canonical addresses of one half are as far apart as they are.
  lemma SameRange(v: nat, w: nat, s: nat)
    requires Canonical(v) && Canonical(w) && s <= HALF
    requires w % SPAN5 <= v % SPAN5 < w % SPAN5 + s ==> (v < HALF <==> w < HALF)
    ensures w <= v < w + s <==> w % SPAN5 <= v % SPAN5 < w % SPAN5 + s
  {
    LowBits(v);
    LowBits(w);
  }

  lemma PageLow(level: nat, v: nat)
    requires 1 <= level <= 4
    ensures Page(level, v) == v % SPAN5 / Span(level)
  {
  }

  lemma LowBits(v: nat)
    requires Canonical(v)
    ensures v % SPAN5 == if v < HALF then v else v - (WORD - SPAN5)
    ensures v < HALF <==> v % SPAN5 < HALF
  {
  }

  lemma LowAligned(level: nat, w: nat)
    requires 1 <= level <= 3 && w % Span(level) == 0
    ensures w % SPAN5 % Span(level) == 0
  {
    LowOffset(level, w);
    hide Span;
  }

  lemma LowPage(level: nat, x: nat, y: nat)
    requires 1 <= level <= 3 && x < SPAN5 && y < SPAN5 && y % Span(level) == 0
    ensures Span(level) <= HALF
    ensures x / Span(level) == y / Span(level) <==> y <= x < y + Span(level)
    ensures x / Span(level) == y / Span(level) ==> (x < HALF <==> y < HALF)
  {
  }

  // The canonical address with the same low bits.
  function Canon(v: nat): nat {
    if v % SPAN5 < HALF then v % SPAN5 else v % SPAN5 + (WORD - SPAN5)
  }

  lemma CanonLow(v: nat)
    ensures Canonical(Canon(v)) && Canon(v) % SPAN5 == v % SPAN5
    ensures Canonical(v) ==> Canon(v) == v
  {
  }

  lemma CanonSame(level: nat, v: nat)
    requires 1 <= level <= 4
    ensures Index(level, Canon(v)) == Index(level, v) && Page(level, Canon(v)) == Page(level, v)
    ensures Canon(v) % Span(level) == v % Span(level)
  {
    IndexOfLow(level, v);
    IndexOfLow(level, Canon(v));
    CanonLow(v);
    LowOffset(level, v);
    LowOffset(level, Canon(v));
  }

  lemma LowOffset(level: nat, v: nat)
    requires 1 <= level <= 4
    ensures v % Span(level) == v % SPAN5 % Span(level)
  {
    var q, w := v / SPAN5, v % SPAN5;
    assert v == q * 0x1_0000_0000_0000 + w;
    Offset1(q, w);
    Offset2(q, w);
    Offset3(q, w);
    Offset4(q, w);
  }

  lemma Offset1(q: nat, w: nat)
    ensures (q * 0x1_0000_0000_0000 + w) % 0x1000 == w % 0x1000
  {
  }

  lemma Offset2(q: nat, w: nat)
    ensures (q * 0x1_0000_0000_0000 + w) % 0x20_0000 == w % 0x20_0000
  {
  }

  lemma Offset3(q: nat, w: nat)
    ensures (q * 0x1_0000_0000_0000 + w) % 0x4000_0000 == w % 0x4000_0000
  {
  }

  lemma Offset4(q: nat, w: nat)
    ensures (q * 0x1_0000_0000_0000 + w) % 0x80_0000_0000 == w % 0x80_0000_0000
  {
  }

  lemma {:induction false} CanonWalk(frames: Frames, t: nat, level: nat, v: nat)
    requires 1 <= level <= 4
    ensures Walk(frames, t, level, Canon(v)) == Walk(frames, t, level, v)
    decreases level
  {
    CanonSame(level, v);
    hide Canon, Index;
    if t in frames && |frames[t]| == TABLE_SIZE {
      var e := frames[t][Index(level, v)];
      if e.Present? && !IsLeaf(level, e) {
        CanonWalk(frames, e.addr, level - 1, v);
      }
    }
  }

  // ----- the mappings -----

  function LeafFlags(kind: MemoryType): Flags {
    Flags(kind.write, kind.user, kind.cacheDisable, kind.cacheDisable, !kind.execute)
  }

  function TableFlags(kind: MemoryType): Flags {
    Flags(true, kind.user, false, false, false)
  }

  // A final entry that the tables asked for lead to says all there is to say.
  lemma {:induction false} UnderSame(above: seq<Flags>, kind: MemoryType, h: Hit)
    requires forall f :: f in above ==> f == TableFlags(kind)
    requires h.flags == LeafFlags(kind)
    ensures UnderAll(above, Some(h)) == Some(h)
  {
    if above != [] {
      assert above[0] in above && forall f :: f in above[1..] ==> f in above;
      UnderSame(above[1..], kind, h);
    }
  }

  function PageBytes(kind: MemoryType): (s: nat)
    ensures s > 0
  {
    Span(PageLevel(kind))
  }

  // What the mapping of `item` onto `phys` says about an address in it.
  function HitOf(item: Item, phys: nat, v: nat): Hit
    requires item.Covers(v)
  {
    Hit(phys + (v - item.addr), PageLevel(item.kind), LeafFlags(item.kind))
  }

  // The addresses an address space translates by its own mappings: the top slot
  // belongs to the kernel.
  predicate OwnAddress(isKernel: bool, v: nat) {
    Canonical(v) && (isKernel || Index(4, v) != KERNEL_PML4)
  }

  predicate Covered(maps: map<Item, nat>, v: nat) {
    exists m :: m in maps && m.Covers(v)
  }

  // The tables translate `v` as the mappings say.
  predicate Translated(frames: Frames, root: nat, maps: map<Item, nat>, v: nat) {
    && (forall m :: m in maps && m.Covers(v) ==> Walk(frames, root, 4, v) == Some(HitOf(m, maps[m], v)))
    && (!Covered(maps, v) ==> Walk(frames, root, 4, v) == None)
  }

  // What a list says of an address: one hit by all that covers it, or none.
  predicate Says(maps: map<Item, nat>, v: nat, h: Option<Hit>) {
    && (forall m :: m in maps && m.Covers(v) ==> h == Some(HitOf(m, maps[m], v)))
    && (!Covered(maps, v) ==> h == None)
  }

  lemma TranslatedSays(frames: Frames, root: nat, maps: map<Item, nat>, v: nat)
    ensures Translated(frames, root, maps, v) <==> Says(maps, v, Walk(frames, root, 4, v))
  {
    hide Walk;
  }

  // What does not cover an address has no say about it.
  lemma SaysLess(maps: map<Item, nat>, item: Item, phys: nat, v: nat, h: Option<Hit>)
    requires item !in maps && !item.Covers(v)
    ensures Says(maps[item := phys], v, h) <==> Says(maps, v, h)
  {
    CoveredLess(maps, item, phys, v);
    if Covered(maps, v) {
      var m :| m in maps && m.Covers(v);
      assert m in maps[item := phys];
    }
    hide HitOf;
  }

  ghost predicate Translates(frames: Frames, root: nat, isKernel: bool, maps: map<Item, nat>) {
    forall v: nat :: OwnAddress(isKernel, v) ==> Translated(frames, root, maps, v)
  }

  // Part of the way through mapping `item`: up to `upto`, on top of `frames0`.
  ghost predicate Extended(frames0: Frames, frames: Frames, root: nat, isKernel: bool, item: Item, phys: nat, upto: nat)
    requires upto <= item.addr + item.length
  {
    forall v: nat :: OwnAddress(isKernel, v) ==>
      Walk(frames, root, 4, v) ==
        (if item.addr <= v < upto then Some(HitOf(item, phys, v)) else Walk(frames0, root, 4, v))
  }

  // Part of the way through unmapping [start, upto).
  ghost predicate Cleared(frames0: Frames, frames: Frames, root: nat, isKernel: bool, start: nat, upto: nat) {
    forall v: nat :: OwnAddress(isKernel, v) ==>
      Walk(frames, root, 4, v) == (if start <= v < upto then None else Walk(frames0, root, 4, v))
  }

  // The part of the address space that mappings of the kernel, and of a user, may use.
  function Lo(isKernel: bool): nat {
    if isKernel then 0xFFFF_FF80_0000_0000 else 0
  }

  function Hi(isKernel: bool): nat {
    if isKernel then 0xFFFF_FFFF_FFFF_FFFF else HALF
  }

  // The range stays in one of the canonical halves of the address space.
  predicate Contiguous(virt: nat, length: nat) {
    virt + length <= HALF || WORD - HALF <= virt
  }

  predicate InPart(isKernel: bool, virt: nat, length: nat) {
    Lo(isKernel) <= virt && virt + length <= Hi(isKernel)
  }

  lemma OwnInSlot(isKernel: bool, w: nat)
    requires Lo(isKernel) <= w < Hi(isKernel)
    ensures OwnAddress(isKernel, w)
  {
  }

  predicate ItemOk(m: Item, phys: nat, lo: nat, hi: nat) {
    && 0 < m.length && lo <= m.addr && m.addr + m.length <= hi
    && m.addr % PageBytes(m.kind) == 0 && m.length % PageBytes(m.kind) == 0 && phys % PageBytes(m.kind) == 0
  }

  predicate Apart(m: Item, n: Item) {
    m.addr + m.length <= n.addr || n.addr + n.length <= m.addr
  }

  ghost predicate MapsOk(maps: map<Item, nat>, lo: nat, hi: nat) {
    && (forall m :: m in maps ==> ItemOk(m, maps[m], lo, hi))
    && (forall m, n :: m in maps && n in maps && m != n ==> Apart(m, n))
  }

  // A mapping that may be added.
  ghost predicate Fresh(maps: map<Item, nat>, isKernel: bool, item: Item, phys: nat) {
    && ItemOk(item, phys, Lo(isKernel), Hi(isKernel))
    && item !in maps && forall m :: m in maps ==> Apart(m, item)
  }

  lemma MapsMore(maps: map<Item, nat>, isKernel: bool, item: Item, phys: nat)
    requires MapsOk(maps, Lo(isKernel), Hi(isKernel)) && Fresh(maps, isKernel, item, phys)
    ensures MapsOk(maps[item := phys], Lo(isKernel), Hi(isKernel)) && item !in maps
  {
  }

  lemma MapsLess(maps: map<Item, nat>, isKernel: bool, item: Item)
    requires MapsOk(maps, Lo(isKernel), Hi(isKernel))
    ensures MapsOk(maps - {item}, Lo(isKernel), Hi(isKernel))
  {
  }

  // ----- a whole mapping -----

  /** Once every page is in place, the tables translate by one mapping more. */
  lemma TranslatesMore(frames0: Frames, frames: Frames, root: nat, isKernel: bool, maps: map<Item, nat>, item: Item,
      phys: nat)
    requires Translates(frames0, root, isKernel, maps)
    requires Extended(frames0, frames, root, isKernel, item, phys, item.addr + item.length)
    requires item !in maps && forall m :: m in maps ==> Apart(m, item)
    ensures Translates(frames, root, isKernel, maps[item := phys])
  {
    var maps' := maps[item := phys];
    forall v: nat | OwnAddress(isKernel, v)
      ensures Translated(frames, root, maps', v)
    {
      assert Translated(frames0, root, maps, v);
      if item.Covers(v) {
        assert forall m :: m in maps ==> !m.Covers(v);
      } else {
        CoveredLess(maps, item, phys, v);
      }
    }
  }

  lemma CoveredLess(maps: map<Item, nat>, item: Item, phys: nat, v: nat)
    requires !item.Covers(v)
    ensures Covered(maps[item := phys], v) ==> Covered(maps, v)
    ensures Covered(maps, v) ==> Covered(maps - {item}, v)
  {
    if Covered(maps[item := phys], v) {
      var m :| m in maps[item := phys] && m.Covers(v);
      assert m in maps;
    }
    if Covered(maps, v) {
      var m :| m in maps && m.Covers(v);
      assert m in maps - {item};
    }
  }

  /** Once every page is cleared, they translate by one mapping less. */
  lemma TranslatesLess(frames0: Frames, frames: Frames, root: nat, isKernel: bool, maps: map<Item, nat>, item: Item)
    requires Translates(frames0, root, isKernel, maps) && item in maps
    requires Cleared(frames0, frames, root, isKernel, item.addr, item.addr + item.length)
    requires forall m :: m in maps && m != item ==> Apart(m, item)
    ensures Translates(frames, root, isKernel, maps - {item})
  {
    forall v: nat | OwnAddress(isKernel, v)
      ensures Translated(frames, root, maps - {item}, v)
    {
      assert Translated(frames0, root, maps, v);
      if item.Covers(v) {
        assert forall m :: m in maps && m != item ==> !m.Covers(v);
      } else {
        CoveredLess(maps, item, 0, v);
      }
    }
  }
}
