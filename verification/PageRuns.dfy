/** Pages one after the other from an address on, round the 48 bits that the tables know. */
module PageRuns {
  import opened MemoryTypes
  import opened PageTables
  import opened Translation

  function Next(level: nat, v: nat): nat
    requires 1 <= level <= 3
  {
    (v + Span(level)) % WORD
  }

  // How many pages of a size there are.
  function Pages(level: nat): nat
    requires 1 <= level <= 3
  {
    if level == 1 then 0x10_0000_0000 else if level == 2 then 0x800_0000 else 0x4_0000
  }

  // How many pages after that of `v` the page of `x` comes, the last being followed by the first.
  function Ahead(level: nat, v: nat, x: nat): nat
    requires 1 <= level <= 3
  {
    var p, q := Page(level, v), Page(level, x);
    if p <= q then q - p else q + Pages(level) - p
  }

  lemma NextPage(level: nat, v: nat)
    requires 1 <= level <= 3
    ensures Page(level, v) < Pages(level)
    ensures Page(level, Next(level, v)) == if Page(level, v) + 1 == Pages(level) then 0 else Page(level, v) + 1
  {
    var w := v % SPAN5;
    assert Next(level, v) % SPAN5 == if w + Span(level) < SPAN5 then w + Span(level) else w + Span(level) - SPAN5 by {
      LowWord(v + Span(level));
      LowSum(v, Span(level));
    }
    if level == 1 {
      assert (w + 0x1000) / 0x1000 == w / 0x1000 + 1;
    } else if level == 2 {
      assert (w + 0x20_0000) / 0x20_0000 == w / 0x20_0000 + 1;
    } else {
      assert (w + 0x4000_0000) / 0x4000_0000 == w / 0x4000_0000 + 1;
    }
  }

  lemma LowWord(x: nat)
    ensures x % WORD % SPAN5 == x % SPAN5
  {
  }

  lemma LowSum(v: nat, s: nat)
    requires s < SPAN5
    ensures (v + s) % SPAN5 == if v % SPAN5 + s < SPAN5 then v % SPAN5 + s else v % SPAN5 + s - SPAN5
  {
  }

  lemma AheadNext(level: nat, v: nat, x: nat)
    requires 1 <= level <= 3
    ensures Ahead(level, v, x) < Pages(level) && (Ahead(level, v, x) == 0 <==> Page(level, x) == Page(level, v))
    ensures Ahead(level, Next(level, v), x) ==
      if Ahead(level, v, x) == 0 then Pages(level) - 1 else Ahead(level, v, x) - 1
  {
    NextPage(level, v);
    NextPage(level, x);
    hide Page, Next;
  }

  // The pages of a mapping are the ones that come next from its start on.
  lemma CoversExactly(m: Item, phys: nat, isKernel: bool, v: nat)
    requires ItemOk(m, phys, Lo(isKernel), Hi(isKernel)) && Canonical(v)
    ensures m.Covers(v) <==> Ahead(PageLevel(m.kind), m.addr, v) < m.length / PageBytes(m.kind)
    ensures m.length / PageBytes(m.kind) <= Pages(PageLevel(m.kind)) / 2
  {
    var level, n := PageLevel(m.kind), m.length / PageBytes(m.kind);
    CoversLow(m, phys, isKernel, v);
    LowAligned(level, m.addr);
    LowRange(level, m.addr % SPAN5, v % SPAN5, n);
    HalfOfPages(level, m.length);
    hide Span;
  }

  lemma CoversLow(m: Item, phys: nat, isKernel: bool, v: nat)
    requires ItemOk(m, phys, Lo(isKernel), Hi(isKernel)) && Canonical(v)
    ensures m.length == m.length / PageBytes(m.kind) * PageBytes(m.kind) && m.length <= HALF
    ensures m.addr % SPAN5 + m.length <= SPAN5
    ensures m.Covers(v) <==> m.addr % SPAN5 <= v % SPAN5 < m.addr % SPAN5 + m.length
  {
    LowBits(v);
    LowBits(m.addr);
  }

  lemma HalfOfPages(level: nat, length: nat)
    requires 1 <= level <= 3 && length <= HALF
    ensures length / Span(level) <= Pages(level) / 2
  {
  }

  lemma LowRange(level: nat, a: nat, x: nat, n: nat)
    requires 1 <= level <= 3 && a < SPAN5 && x < SPAN5
    ensures var p, q := a / Span(level), x / Span(level);
      a % Span(level) == 0 && a + n * Span(level) <= SPAN5 ==>
        (a <= x < a + n * Span(level) <==> (if p <= q then q - p else q + Pages(level) - p) < n)
  {
  }

  lemma AheadSame(level: nat, v: nat, w: nat, x: nat)
    requires 1 <= level <= 3 && Page(level, v) == Page(level, w)
    ensures Ahead(level, v, x) == Ahead(level, w, x)
    ensures Ahead(level, v, Canon(x)) == Ahead(level, v, x)
  {
    CanonSame(level, x);
  }
}
