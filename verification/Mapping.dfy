/** Mapping as it runs: from any address, page after page. */
module Mapping {
  import opened Options
  import opened MemoryTypes
  import opened PageRuns
  import opened PageTables
  import opened PageWalks
  import opened Translation
  import opened Evolution

  // The start of page `k` of a mapping.
  function PageStart(item: Item, k: nat): nat {
    item.addr + k * PageBytes(item.kind)
  }

  function PageCount(item: Item): nat {
    item.length / PageBytes(item.kind)
  }

  // What page `k` says about an address, by its offset in the page.
  function PageHit(item: Item, phys: nat, k: nat, x: nat): Hit {
    Hit(phys + k * PageBytes(item.kind) + x % PageBytes(item.kind), PageLevel(item.kind), LeafFlags(item.kind))
  }

  // Of the first `k` pages the last that comes round to the place of page `a`.
  function LastTurn(level: nat, a: nat, k: nat): nat
    requires 1 <= level <= 3 && a < k
  {
    a + (k - 1 - a) / Pages(level) * Pages(level)
  }

  // With the first `k` pages of `item` mapped for `root` on top of `f0`, the walk of `x` from
  // `r`, which sees what `root` maps there, has been changed to what the last of them with its
  // place says; and from an `r` that does not, or for another place, to nothing.
  ghost predicate AddedAt(f0: Frames, f: Frames, kernel: nat, root: nat, r: nat, item: Item, phys: nat, k: nat, x: nat)
  {
    var a := Ahead(PageLevel(item.kind), item.addr, x);
    Walk(f, r, 4, x) ==
      if a < k && Seen(f0, kernel, root, r, x) then Some(PageHit(item, phys, LastTurn(PageLevel(item.kind), a, k), x))
      else Walk(f0, r, 4, x)
  }

  // So for every address space there was.
  ghost predicate Added(f0: Frames, p0: map<nat, Place>, f: Frames, kernel: nat, root: nat, item: Item, phys: nat,
      k: nat)
  {
    forall r, x: nat :: Rooted(f0, p0, kernel, r) ==> AddedAt(f0, f, kernel, root, r, item, phys, k, x)
  }

  lemma AddedNone(f0: Frames, p0: map<nat, Place>, kernel: nat, root: nat, item: Item, phys: nat)
    ensures Added(f0, p0, f0, kernel, root, item, phys, 0)
  {
    hide Rooted, Walk;
  }

  // ----- one page more -----

  // The final entry of page `k`.
  function LeafEntry(item: Item, phys: nat, k: nat): Entry {
    Present(phys + k * PageBytes(item.kind), PageLevel(item.kind) > 1, LeafFlags(item.kind))
  }

  /** Writing the final entry of the next page, wherever that is, maps that page for all who
      see it. */
  lemma AddPage(f0: Frames, p0: map<nat, Place>, f: Frames, places: map<nat, Place>, kernel: nat, root: nat,
      item: Item, phys: nat, k: nat, t: nat)
    requires Rooted(f0, p0, kernel, root) && RootsKept(f0, p0, f, places, kernel)
    requires Added(f0, p0, f, kernel, root, item, phys, k)
    requires item.addr % PageBytes(item.kind) == 0 && phys % PageBytes(item.kind) == 0
    requires TableFor(f, root, 4, PageStart(item, k), PageLevel(item.kind)) == Some(t)
    requires forall g :: g in Above(f, root, 4, PageStart(item, k), PageLevel(item.kind)) ==> g == TableFlags(item.kind)
    ensures t in f && |f[t]| == TABLE_SIZE
    ensures Added(f0, p0, SetEntry(f, t, Index(PageLevel(item.kind), PageStart(item, k)), LeafEntry(item, phys, k)),
      kernel, root, item, phys, k + 1)
  {
    var level, w, e := PageLevel(item.kind), PageStart(item, k), LeafEntry(item, phys, k);
    assert e.Present? && (e.ps <==> level > 1) && 1 <= level <= 3;
    hide *;
    RootsKeptAt(f0, p0, f, places, kernel, root);
    SetSeen(f, places, kernel, root, root, w, level, t, e, w);
    var f', next := SetEntry(f, t, Index(level, w), e), k + 1;
    forall r, x: nat | Rooted(f0, p0, kernel, r)
      ensures AddedAt(f0, f', kernel, root, r, item, phys, next, x)
    {
      AddedOne(f0, p0, f, kernel, root, r, item, phys, k, x);
      RootsKeptAt(f0, p0, f, places, kernel, r);
      SetSeen(f, places, kernel, root, r, w, level, t, e, x);
      LeafUnder(Above(f, root, 4, w, level), item, phys, k, x);
      SeenKept(f0, f, kernel, root, r, w);
      AddAt(f0, f, f', kernel, root, r, item, phys, k, x);
    }
    AddedAll(f0, p0, f', kernel, root, item, phys, next);
  }

  lemma LeafUnder(above: seq<Flags>, item: Item, phys: nat, k: nat, x: nat)
    requires forall g :: g in above ==> g == TableFlags(item.kind)
    ensures var h := LeafHit(PageLevel(item.kind), LeafEntry(item, phys, k), x); UnderAll(above, Some(h)) == Some(h)
  {
    UnderSame(above, item.kind, LeafHit(PageLevel(item.kind), LeafEntry(item, phys, k), x));
    hide UnderAll;
  }

  lemma AddedOne(f0: Frames, p0: map<nat, Place>, f: Frames, kernel: nat, root: nat, r: nat, item: Item, phys: nat,
      k: nat, x: nat)
    requires Added(f0, p0, f, kernel, root, item, phys, k) && Rooted(f0, p0, kernel, r)
    ensures AddedAt(f0, f, kernel, root, r, item, phys, k, x)
  {
    hide AddedAt, Rooted;
  }

  lemma AddedAll(f0: Frames, p0: map<nat, Place>, f: Frames, kernel: nat, root: nat, item: Item, phys: nat, k: nat)
    requires forall r, x: nat :: Rooted(f0, p0, kernel, r) ==> AddedAt(f0, f, kernel, root, r, item, phys, k, x)
    ensures Added(f0, p0, f, kernel, root, item, phys, k)
  {
    hide AddedAt, Rooted;
  }

  lemma AddAt(f0: Frames, f: Frames, f': Frames, kernel: nat, root: nat, r: nat, item: Item, phys: nat, k: nat, x: nat)
    requires AddedAt(f0, f, kernel, root, r, item, phys, k, x)
    requires item.addr % PageBytes(item.kind) == 0 && phys % PageBytes(item.kind) == 0
    requires Walk(f', r, 4, x) ==
      if Page(PageLevel(item.kind), x) != Page(PageLevel(item.kind), PageStart(item, k))
         || !Seen(f0, kernel, root, r, PageStart(item, k)) then Walk(f, r, 4, x)
      else Some(LeafHit(PageLevel(item.kind), LeafEntry(item, phys, k), x))
    ensures AddedAt(f0, f', kernel, root, r, item, phys, k + 1, x)
  {
    var level := PageLevel(item.kind);
    var a := Ahead(level, item.addr, x);
    TurnOf(level, item.addr, k, x);
    if Page(level, x) == Page(level, PageStart(item, k)) {
      LeafIs(item, phys, k, x);
      TurnHere(level, a, k);
      SeenInPage(f0, kernel, root, r, level, PageStart(item, k), x);
    } else if a < k {
      TurnElse(level, a, k);
    }
    hide Walk, Ahead, Page, PageHit, LeafHit, LastTurn, Seen;
  }

  lemma LeafIs(item: Item, phys: nat, k: nat, x: nat)
    requires phys % PageBytes(item.kind) == 0
    ensures LeafHit(PageLevel(item.kind), LeafEntry(item, phys, k), x) == PageHit(item, phys, k, x)
  {
    WholePagesOff(PageLevel(item.kind), phys, k);
  }

  lemma WholePagesOff(level: nat, phys: nat, k: nat)
    requires 1 <= level <= 3 && phys % Span(level) == 0
    ensures (phys + k * Span(level)) / Span(level) * Span(level) == phys + k * Span(level)
  {
    var s := Span(level);
    StartNumber(level, phys, k);
    Whole(level, phys);
    hide Span;
    Distributed(phys / s, k, s);
  }

  lemma Whole(level: nat, phys: nat)
    requires 1 <= level <= 3 && phys % Span(level) == 0
    ensures phys / Span(level) * Span(level) == phys
  {
  }

  lemma Distributed(a: nat, k: nat, s: nat)
    ensures (a + k) * s == a * s + k * s
  {
  }

  // ----- turns -----

  lemma PageNumber(level: nat, v: nat)
    requires 1 <= level <= 3
    ensures Page(level, v) == v / Span(level) % Pages(level)
  {
    var q, w := v / SPAN5, v % SPAN5;
    assert v == q * 0x1_0000_0000_0000 + w;
    if level == 1 {
      Low1(q, w);
      Round1(w / 0x1000, q);
    } else if level == 2 {
      Low2(q, w);
      Round2(w / 0x20_0000, q);
    } else {
      Low3(q, w);
      Round3(w / 0x4000_0000, q);
    }
  }

  lemma Round1(x: nat, q: nat)
    requires x < 0x10_0000_0000
    ensures (x + q * 0x800_0000 * 512) % 0x10_0000_0000 == x
  {
  }

  lemma Round2(x: nat, q: nat)
    requires x < 0x800_0000
    ensures (x + q * 0x4_0000 * 512) % 0x800_0000 == x
  {
  }

  lemma Round3(x: nat, q: nat)
    requires x < 0x4_0000
    ensures (x + q * 0x200 * 512) % 0x4_0000 == x
  {
  }

  lemma StartNumber(level: nat, addr: nat, k: nat)
    requires 1 <= level <= 3
    ensures (addr + k * Span(level)) / Span(level) == addr / Span(level) + k
  {
    if level == 1 {
      assert (addr + k * 0x1000) / 0x1000 == addr / 0x1000 + k;
    } else if level == 2 {
      assert (addr + k * 0x20_0000) / 0x20_0000 == addr / 0x20_0000 + k;
    } else {
      assert (addr + k * 0x4000_0000) / 0x4000_0000 == addr / 0x4000_0000 + k;
    }
  }

  // The number of a page, counted from address zero, and its place among the pages there are.
  function Number(level: nat, v: nat): nat
    requires 1 <= level <= 3
  {
    v / Span(level)
  }

  function Turned(level: nat, n: nat): nat
    requires 1 <= level <= 3
  {
    n % Pages(level)
  }

  // Page `k` comes whole turns after page `a`.
  predicate Comes(level: nat, a: nat, k: nat)
    requires 1 <= level <= 3
  {
    k >= a && (k - a) % Pages(level) == 0
  }

  // Page `k` has the place of `x` exactly when it comes whole turns after the first that has.
  lemma TurnOf(level: nat, addr: nat, k: nat, x: nat)
    requires 1 <= level <= 3
    ensures var a := Ahead(level, addr, x);
      a < Pages(level) && (Page(level, x) == Page(level, addr + k * Span(level)) <==> Comes(level, a, k))
  {
    hide *;
    NumberOf(level, addr);
    NumberOf(level, x);
    NumberOf(level, addr + k * Span(level));
    NumberLater(level, addr, k);
    AheadNext(level, addr, x);
    AheadIs(level, addr, x);
    TurnsAt(level, Number(level, addr), Number(level, x), k);
  }

  lemma NumberOf(level: nat, v: nat)
    requires 1 <= level <= 3
    ensures Page(level, v) == Turned(level, Number(level, v))
  {
    PageNumber(level, v);
    hide Page, Span;
  }

  lemma NumberLater(level: nat, addr: nat, k: nat)
    requires 1 <= level <= 3
    ensures Number(level, addr + k * Span(level)) == Number(level, addr) + k
  {
    StartNumber(level, addr, k);
    hide Span;
  }

  lemma AheadIs(level: nat, v: nat, x: nat)
    requires 1 <= level <= 3
    ensures var p, q := Page(level, v), Page(level, x);
      Ahead(level, v, x) == if p <= q then q - p else q + Pages(level) - p
  {
    hide Page;
  }

  lemma TurnsAt(level: nat, p: nat, q: nat, k: nat)
    requires 1 <= level <= 3
    ensures var p', q' := Turned(level, p), Turned(level, q);
      p' < Pages(level) && q' < Pages(level)
      && (q' == Turned(level, p + k) <==> Comes(level, if p' <= q' then q' - p' else q' + Pages(level) - p', k))
  {
    if level == 1 {
      Turns1(p, q, k);
    } else if level == 2 {
      Turns2(p, q, k);
    } else {
      Turns3(p, q, k);
    }
  }

  lemma Turns1(p: nat, q: nat, k: nat)
    ensures var m := 0x10_0000_0000;
      var a := if p % m <= q % m then q % m - p % m else q % m + m - p % m;
      q % m == (p + k) % m <==> k >= a && (k - a) % m == 0
  {
  }

  lemma Turns2(p: nat, q: nat, k: nat)
    ensures var m := 0x800_0000;
      var a := if p % m <= q % m then q % m - p % m else q % m + m - p % m;
      q % m == (p + k) % m <==> k >= a && (k - a) % m == 0
  {
  }

  lemma Turns3(p: nat, q: nat, k: nat)
    ensures var m := 0x4_0000;
      var a := if p % m <= q % m then q % m - p % m else q % m + m - p % m;
      q % m == (p + k) % m <==> k >= a && (k - a) % m == 0
  {
  }

  lemma TurnHere(level: nat, a: nat, k: nat)
    requires 1 <= level <= 3 && Comes(level, a, k)
    ensures LastTurn(level, a, k + 1) == k
  {
  }

  lemma TurnElse(level: nat, a: nat, k: nat)
    requires 1 <= level <= 3 && a < k && !Comes(level, a, k)
    ensures LastTurn(level, a, k + 1) == LastTurn(level, a, k)
  {
  }

  // ----- where the pages lie -----

  // One of the first `k` pages is in the top slot, which leads into the kernel's tables.
  ghost predicate Strays(item: Item, k: nat) {
    exists j: nat :: j < k && InTop(item, j)
  }

  predicate InTop(item: Item, j: nat) {
    Index(4, PageStart(item, j)) == KERNEL_PML4
  }

  lemma StraysNext(item: Item, k: nat)
    ensures Strays(item, k) || InTop(item, k) ==> Strays(item, k + 1)
  {
    hide InTop;
  }

  // A mapping in the user's part stays out of the top slot.
  lemma OwnStays(item: Item, phys: nat, k: nat)
    requires ItemOk(item, phys, Lo(false), Hi(false)) && k <= PageCount(item)
    ensures !Strays(item, k)
  {
    forall j: nat | j < k
      ensures !InTop(item, j)
    {
      StartWithin(item, j);
      OwnInSlot(false, PageStart(item, j));
    }
    hide InTop;
  }

  lemma StartWithin(item: Item, j: nat)
    requires j < PageCount(item)
    ensures item.Covers(PageStart(item, j))
  {
    WithinLength(PageLevel(item.kind), item.length, j);
  }

  lemma WithinLength(level: nat, length: nat, j: nat)
    requires 1 <= level <= 3 && j < length / Span(level)
    ensures j * Span(level) < length
  {
  }

  /** For a range in the space's own part that is the mapping as the list has it. */
  lemma ExtendedFrom(f0: Frames, p0: map<nat, Place>, f: Frames, kernel: nat, root: nat, isKernel: bool, item: Item,
      phys: nat)
    requires ItemOk(item, phys, Lo(isKernel), Hi(isKernel)) && Rooted(f0, p0, kernel, root)
    requires Added(f0, p0, f, kernel, root, item, phys, PageCount(item))
    ensures Extended(f0, f, root, isKernel, item, phys, item.addr + item.length)
  {
    var n, end := PageCount(item), item.addr + item.length;
    hide *;
    forall v: nat | OwnAddress(isKernel, v)
      ensures ExtendedAt(f0, f, root, item, phys, end, v)
    {
      AddedOne(f0, p0, f, kernel, root, root, item, phys, n, v);
      OwnIsCanonical(isKernel, v);
      OnesOwn(f0, kernel, root, v);
      HitIs(f0, f, kernel, root, isKernel, item, phys, v);
    }
    ExtendedAll(f0, f, root, isKernel, item, phys);
  }

  lemma OnesOwn(f0: Frames, kernel: nat, root: nat, v: nat)
    ensures Seen(f0, kernel, root, root, v)
  {
  }

  ghost predicate ExtendedAt(f0: Frames, f: Frames, root: nat, item: Item, phys: nat, end: nat, v: nat)
    requires end == item.addr + item.length
  {
    Walk(f, root, 4, v) == if item.addr <= v < end then Some(HitOf(item, phys, v)) else Walk(f0, root, 4, v)
  }

  lemma ExtendedAll(f0: Frames, f: Frames, root: nat, isKernel: bool, item: Item, phys: nat)
    requires forall v: nat :: OwnAddress(isKernel, v) ==>
      ExtendedAt(f0, f, root, item, phys, item.addr + item.length, v)
    ensures Extended(f0, f, root, isKernel, item, phys, item.addr + item.length)
  {
    hide Walk, OwnAddress, HitOf;
  }

  lemma OwnIsCanonical(isKernel: bool, v: nat)
    requires OwnAddress(isKernel, v)
    ensures Canonical(v)
  {
  }

  lemma HitIs(f0: Frames, f: Frames, kernel: nat, root: nat, isKernel: bool, item: Item, phys: nat, v: nat)
    requires ItemOk(item, phys, Lo(isKernel), Hi(isKernel)) && Canonical(v) && Seen(f0, kernel, root, root, v)
    requires AddedAt(f0, f, kernel, root, root, item, phys, PageCount(item), v)
    ensures ExtendedAt(f0, f, root, item, phys, item.addr + item.length, v)
  {
    PageHitIs(item, phys, isKernel, v);
    hide Walk, Ahead, LastTurn, ItemOk, Canonical, PageHit, HitOf, Seen, PageCount;
  }

  // The pages of a mapping in its part, address by address.
  lemma PageHitIs(item: Item, phys: nat, isKernel: bool, v: nat)
    requires ItemOk(item, phys, Lo(isKernel), Hi(isKernel)) && Canonical(v)
    ensures var level, n := PageLevel(item.kind), PageCount(item);
      var a := Ahead(level, item.addr, v);
      && (item.Covers(v) <==> a < n)
      && (a < n ==> PageHit(item, phys, LastTurn(level, a, n), v) == HitOf(item, phys, v))
  {
    var level, n := PageLevel(item.kind), PageCount(item);
    var a := Ahead(level, item.addr, v);
    CoversExactly(item, phys, isKernel, v);
    if item.Covers(v) {
      OffsetIs(item, phys, isKernel, v);
      FirstTurn(level, a, n);
      assert v - item.addr == a * PageBytes(item.kind) + v % PageBytes(item.kind);
      hide Ahead, PageBytes, LastTurn, ItemOk, Canonical;
    }
    hide Ahead, PageBytes, LastTurn, ItemOk, Canonical, PageHit, HitOf;
  }

  lemma FirstTurn(level: nat, a: nat, n: nat)
    requires 1 <= level <= 3 && a < n <= Pages(level)
    ensures LastTurn(level, a, n) == a
  {
  }

  lemma OffsetIs(item: Item, phys: nat, isKernel: bool, v: nat)
    requires ItemOk(item, phys, Lo(isKernel), Hi(isKernel)) && Canonical(v) && item.Covers(v)
    ensures var level := PageLevel(item.kind);
      v - item.addr == Ahead(level, item.addr, v) * PageBytes(item.kind) + v % PageBytes(item.kind)
  {
    var level := PageLevel(item.kind);
    LowBits(v);
    LowBits(item.addr);
    LowAligned(level, item.addr);
    LowOffset(level, v);
    OffsetLow(level, item.addr % SPAN5, v % SPAN5);
    hide ItemOk, Canonical;
  }

  lemma OffsetLow(level: nat, a: nat, x: nat)
    requires 1 <= level <= 3 && a % Span(level) == 0 && a <= x
    ensures a / Span(level) <= x / Span(level)
    ensures x - a == (x / Span(level) - a / Span(level)) * Span(level) + x % Span(level)
  {
  }

  // ----- ranges that leave the own part -----

  // Every page written is, afterwards, what the list says of its addresses.
  ghost predicate Redundant(isKernel: bool, maps: map<Item, nat>, item: Item, phys: nat) {
    forall v: nat :: OwnAddress(isKernel, v) ==> PageSaid(maps[item := phys], item, phys, v)
  }

  // If a page of `item` comes to the place of `v`, the list says what the last of them says.
  ghost predicate PageSaid(maps: map<Item, nat>, item: Item, phys: nat, v: nat) {
    var level, n := PageLevel(item.kind), PageCount(item);
    var a := Ahead(level, item.addr, v);
    a < n ==> Says(maps, v, Some(PageHit(item, phys, LastTurn(level, a, n), v)))
  }

  /** A range may start anywhere and be of any length. The tables agree with the list afterwards
      exactly when it lies in the own part, or all it writes is what the list says anyway. */
  lemma MapExactly(f0: Frames, p0: map<nat, Place>, f: Frames, kernel: nat, root: nat, isKernel: bool,
      maps: map<Item, nat>, item: Item, phys: nat)
    requires Translates(f0, root, isKernel, maps) && Rooted(f0, p0, kernel, root)
    requires Added(f0, p0, f, kernel, root, item, phys, PageCount(item))
    requires item.addr % PageBytes(item.kind) == 0 && item.length % PageBytes(item.kind) == 0
    requires item !in maps && (InPart(isKernel, item.addr, item.length) ==> Fresh(maps, isKernel, item, phys))
    ensures Translates(f, root, isKernel, maps[item := phys])
      <==> InPart(isKernel, item.addr, item.length) || Redundant(isKernel, maps, item, phys)
  {
    if InPart(isKernel, item.addr, item.length) {
      assert ItemOk(item, phys, Lo(isKernel), Hi(isKernel)) && forall m :: m in maps ==> Apart(m, item);
      hide *;
      ExtendedFrom(f0, p0, f, kernel, root, isKernel, item, phys);
      TranslatesMore(f0, f, root, isKernel, maps, item, phys);
    } else {
      hide InPart, Fresh, Rooted, Added, Translated, PageSaid, Canonical, Lo, Hi;
      forall v: nat | OwnAddress(isKernel, v)
        ensures Translated(f, root, maps[item := phys], v) <==> PageSaid(maps[item := phys], item, phys, v)
      {
        AddedOne(f0, p0, f, kernel, root, root, item, phys, PageCount(item), v);
        OnesOwn(f0, kernel, root, v);
        SaidExactly(f0, f, kernel, root, maps, item, phys, v);
      }
    }
  }

  lemma SaidExactly(f0: Frames, f: Frames, kernel: nat, root: nat, maps: map<Item, nat>, item: Item, phys: nat, v: nat)
    requires Translated(f0, root, maps, v) && Seen(f0, kernel, root, root, v)
    requires AddedAt(f0, f, kernel, root, root, item, phys, PageCount(item), v)
    requires item.addr % PageBytes(item.kind) == 0 && item.length % PageBytes(item.kind) == 0 && item !in maps
    ensures Translated(f, root, maps[item := phys], v) <==> PageSaid(maps[item := phys], item, phys, v)
  {
    TranslatedSays(f0, root, maps, v);
    TranslatedSays(f, root, maps[item := phys], v);
    if Ahead(PageLevel(item.kind), item.addr, v) >= PageCount(item) {
      if item.Covers(v) {
        CoveredAhead(item, v);
      }
      hide Walk, Ahead, Says, PageCount, Seen, Translated;
      SaysLess(maps, item, phys, v, Walk(f0, root, 4, v));
    }
    hide Walk, Ahead, Says, PageCount, Seen, Translated;
  }

  // The pages of a range are among those that its loop maps.
  lemma CoveredAhead(item: Item, x: nat)
    requires item.Covers(x)
    requires item.addr % PageBytes(item.kind) == 0 && item.length % PageBytes(item.kind) == 0
    ensures Ahead(PageLevel(item.kind), item.addr, x) < PageCount(item)
  {
    var level, d := PageLevel(item.kind), x - item.addr;
    var k := d / PageBytes(item.kind);
    SamePageNumber(level, item.addr, d, item.length);
    hide *;
    NumberOf(level, x);
    NumberOf(level, PageStart(item, k));
    StartIs(item, k);
    TurnOf(level, item.addr, k, x);
    ComesAfter(level, Ahead(level, item.addr, x), k);
  }

  lemma StartIs(item: Item, k: nat)
    ensures PageStart(item, k) == item.addr + k * Span(PageLevel(item.kind))
  {
  }

  lemma ComesAfter(level: nat, a: nat, k: nat)
    requires 1 <= level <= 3 && Comes(level, a, k)
    ensures a <= k
  {
  }

  lemma SamePageNumber(level: nat, addr: nat, d: nat, length: nat)
    requires 1 <= level <= 3 && addr % Span(level) == 0 && length % Span(level) == 0 && d < length
    ensures Number(level, addr + d / Span(level) * Span(level)) == Number(level, addr + d)
    ensures d / Span(level) < length / Span(level)
  {
    StartNumber(level, addr, d / Span(level));
  }
}
