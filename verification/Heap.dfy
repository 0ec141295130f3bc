/** The heap as it runs: free nodes linked through the memory they describe, spliced in
    place. */
module Heap {
  import opened Options
  import opened HeapSpec
  import opened HeapProofs

  const END_OF_LIST: nat := 0xFFFF_FFFF_FFFF_FFFF

  // Sixteen bytes of memory read as two words: a free node, or the header of an
  // allocation (its size and a cookie).
  datatype Node = Node(size: nat, next: nat)

  // A `free_node**`: the head of the list, or the next field of a node.
  datatype Link = Head | NextOf(node: nat)

  function AddrAt(blocks: seq<Block>, i: nat): nat {
    if i < |blocks| then blocks[i].addr else END_OF_LIST
  }

  ghost predicate Linked(head: nat, mem: map<nat, Node>, blocks: seq<Block>) {
    && head == AddrAt(blocks, 0)
    && forall i :: 0 <= i < |blocks| ==>
      blocks[i].addr in mem && mem[blocks[i].addr] == Node(blocks[i].size, AddrAt(blocks, i + 1))
  }

  // The granule at `a` is the same in both memories.
  ghost predicate Same(mem: map<nat, Node>, mem': map<nat, Node>, a: nat) {
    (a in mem' <==> a in mem) && (a in mem' ==> mem'[a] == mem[a])
  }

  // The memories differ at most at the given addresses.
  ghost predicate AgreeOff(mem: map<nat, Node>, mem': map<nat, Node>, changed: set<nat>) {
    forall a :: a !in changed ==> Same(mem, mem', a)
  }

  lemma AgreeTrans(m1: map<nat, Node>, m2: map<nat, Node>, m3: map<nat, Node>, x: set<nat>, y: set<nat>)
    requires AgreeOff(m1, m2, x) && AgreeOff(m2, m3, y)
    ensures AgreeOff(m1, m3, x + y)
  {
    forall a | a !in x + y
      ensures Same(m1, m3, a)
    {
      assert Same(m1, m2, a) && Same(m2, m3, a);
    }
  }

  lemma AgreeUpdate(m: map<nat, Node>, a: nat, n: Node)
    ensures AgreeOff(m, m[a := n], {a})
  {
  }

  class SimpleHeap {
    const base: nat
    const end: nat
    var mem: map<nat, Node>
    var free: nat
    ghost var s: HeapState

    ghost predicate Valid()
      reads this
    {
      && s.base == base && s.end == end && end < END_OF_LIST
      && Ok(s)
      && Linked(free, mem, s.free)
    }

    constructor (base: nat, length: nat)
      requires NODE_SIZE <= length && length % NODE_SIZE == 0
      requires base + length < END_OF_LIST
      ensures Valid() && this.base == base && this.end == base + length
      ensures s == Init(base, length) && s.live == {}
    {
      this.base, this.end := base, base + length;
      this.mem, this.free := map[base := Node(length, END_OF_LIST)], base;
      this.s := Init(base, length);
      InitOk(base, length);
    }

    /** The destructor's check. */
    method Destroy() returns (ok: bool)
      requires Valid()
      ensures ok <==> s.live == {}
    {
      WholeExactlyWhenAllFreed(s);
      ok := free == base;
      if ok {
        assert |s.free| > 0;
        ok := mem[free].size == end - base;
        if ok {
          OnlyWholeBlockSpans(s);
        }
      }
    }

    /** First fit, splitting the block found, for any size; halts when no free block is large
        enough. The heap is sound afterwards exactly when the size was a positive multiple
        of a node's. */
    method Alloc(size: nat) returns (r: Option<nat>)
      requires Valid()
      modifies this
      ensures r.None? ==> AllocStep(old(s), size).None? && s == old(s) && mem == old(mem)
      ensures r.Some? ==> AllocStep(old(s), size) == Some((s, r.value)) && Linked(free, mem, s.free)
      ensures r.Some? ==> Spared(old(s.live), old(mem), mem) && Block(r.value, size) !in old(s.live)
      ensures Valid() <==> r.None? || WholeNodes(size)
    {
      var fp, cur := FindFit(size);
      if cur == END_OF_LIST {
        r := None;
      } else {
        Take(fp, cur, size);
        r := Some(cur);
      }
    }

    // The search loop of `alloc`: `fp` is the link that leads to the block found.
    method FindFit(size: nat) returns (fp: Link, cur: nat)
      requires Valid()
      ensures var k := FirstFit(s.free, size);
        && cur == AddrAt(s.free, k)
        && (cur == END_OF_LIST <==> k == |s.free|)
        && fp == LinkTo(s.free, k)
    {
      fp, cur := Head, free;
      ghost var k := 0;
      hide Ok;
      while cur != END_OF_LIST && mem[cur].size < size
        invariant k <= |s.free| && cur == AddrAt(s.free, k)
        invariant k < |s.free| ==> cur in mem && mem[cur] == Node(s.free[k].size, AddrAt(s.free, k + 1))
        invariant fp == LinkTo(s.free, k)
        invariant FirstFit(s.free, size) == k + FirstFit(s.free[k..], size)
        decreases |s.free| - k
      {
        FirstFitStep(s.free, k, size);
        fp, cur, k := NextOf(cur), mem[cur].next, k + 1;
      }
      EndOnlyAtEnd(s, k);
    }

    // The part of `alloc` after the search: `*fp` is `cur`, which is large enough.
    method Take(fp: Link, cur: nat, size: nat)
      requires Valid()
      requires var k := FirstFit(s.free, size); k < |s.free| && cur == s.free[k].addr && fp == LinkTo(s.free, k)
      modifies this
      ensures AllocStep(old(s), size) == Some((s, cur)) && Linked(free, mem, s.free)
      ensures Valid() <==> WholeNodes(size)
      ensures Spared(old(s.live), old(mem), mem) && Block(cur, size) !in old(s.live)
    {
      ghost var k := FirstFit(s.free, size);
      hide Ok, Linked, AllocStep;
      LinkedAt(free, mem, s.free, k);
      if k > 0 {
        LinkedAt(free, mem, s.free, k - 1);
        Earlier(s, k - 1, k);
      }
      var nextFree, freeSize := cur + size / NODE_SIZE * NODE_SIZE, mem[cur].size - size;
      if freeSize != 0 {
        mem := mem[nextFree := Node(freeSize, mem[cur].next)];
        StoreLink(fp, nextFree);
      } else {
        StoreLink(fp, mem[cur].next);
      }
      AllocStored(s, old(free), old(mem), mem, free, size);
      s := AllocStep(s, size).value.0;
    }

    /** Hands an allocation back. The range check cannot fail for a live allocation. */
    method Free(ptr: nat, size: nat)
      requires Valid() && Block(ptr, size) in s.live
      modifies this
      ensures Valid() && s == FreeStep(old(s), Block(ptr, size))
      ensures Spared(s.live, old(mem), mem)
    {
      ghost var b := Block(ptr, size);
      assert base <= ptr && ptr + size <= end by { assert Fits(s.base, s.end, b); }
      InsertFree(ptr, size);
      s := FreeStep(s, b);
      FreeKeeps(old(s), b);
    }

    method InsertFree(ptr: nat, size: nat)
      requires Valid() && Block(ptr, size) in s.live
      modifies this`mem, this`free
      ensures Linked(free, mem, HeapSpec.InsertFree(s.free, Block(ptr, size)))
      ensures Spared(s.live - {Block(ptr, size)}, old(mem), mem)
    {
      ghost var b := Block(ptr, size);
      ghost var k := Below(s.free, ptr);
      SpliceFacts(s, b);
      hide *;
      if free == END_OF_LIST || free > ptr {
        LinkFirst(ptr, size);
        label linked:
        CoalesceFrom(free, Spliced(s.free, b), 0);
        SpliceSpares(s, b, old(mem), old@linked(mem), mem, free);
      } else {
        var prev := FindPrev(ptr);
        LinkAfter(prev, ptr, size);
        label linked:
        CoalesceFrom(prev, Spliced(s.free, b), k - 1);
        SpliceSpares(s, b, old(mem), old@linked(mem), mem, prev);
      }
    }

    // `new_free` becomes the head.
    method LinkFirst(ptr: nat, size: nat)
      requires Linked(free, mem, s.free) && Stacked(s.free)
      requires ptr < free
      modifies this`mem, this`free
      ensures free == ptr && free in Touched(s.free, Block(ptr, size))
      ensures Linked(free, mem, Spliced(s.free, Block(ptr, size))) && Below(s.free, ptr) == 0
      ensures AgreeOff(old(mem), mem, Touched(s.free, Block(ptr, size)))
    {
      mem := mem[ptr := Node(size, END_OF_LIST)];
      mem := mem[ptr := mem[ptr].(next := free)];
      free := ptr;
    }

    // `new_free` goes in behind `prev`.
    method LinkAfter(prev: nat, ptr: nat, size: nat)
      requires Linked(free, mem, s.free) && Stacked(s.free)
      requires forall i :: 0 <= i < |s.free| ==> s.free[i].addr != ptr
      requires var k := Below(s.free, ptr); 0 < k && prev == s.free[k - 1].addr
      modifies this`mem
      ensures prev in Touched(s.free, Block(ptr, size))
      ensures Linked(free, mem, Spliced(s.free, Block(ptr, size)))
      ensures AgreeOff(old(mem), mem, Touched(s.free, Block(ptr, size)))
    {
      ghost var k := Below(s.free, ptr);
      LinkedAt(free, mem, s.free, k - 1);
      hide Linked, Stacked;
      mem := mem[ptr := Node(size, END_OF_LIST)];
      mem := mem[ptr := mem[ptr].(next := mem[prev].next)];
      mem := mem[prev := mem[prev].(next := ptr)];
      SpliceLinked(free, old(mem), s.free, Block(ptr, size), free, mem);
    }

    // `*fp = value`
    method StoreLink(fp: Link, value: nat)
      requires fp.NextOf? ==> fp.node in mem
      modifies this`mem, this`free
      ensures fp == Head ==> free == value && mem == old(mem)
      ensures fp.NextOf? ==> free == old(free) && mem == old(mem)[fp.node := old(mem)[fp.node].(next := value)]
    {
      match fp
      case Head => free := value;
      case NextOf(n) => mem := mem[n := mem[n].(next := value)];
    }

    // Takes in the blocks that follow `f` without a gap.
    method CoalesceFrom(f: nat, ghost list: seq<Block>, ghost i: nat)
      requires Linked(free, mem, list) && Stacked(list)
      requires i < |list| && f == list[i].addr
      modifies this`mem
      ensures Linked(free, mem, MergeAt(list, i))
      ensures AgreeOff(old(mem), mem, {f})
    {
      ghost var cur := list;
      CoalesceStart(free, mem, list, i);
      hide *;
      while mem[f].next != END_OF_LIST && f + mem[f].size == mem[f].next
        invariant Coalescing(free, old(mem), mem, list, i, cur)
        invariant i < |cur| && f == cur[i].addr && f in mem && mem[f] == Node(cur[i].size, AddrAt(cur, i + 1))
        decreases |cur|
      {
        Absorb(f, old(mem), list, i, cur);
        cur := MergeOnce(cur, i);
      }
      CoalesceEnd(free, old(mem), mem, list, i, cur);
    }

    // `f` takes over its successor's size and link.
    method Absorb(f: nat, ghost mem0: map<nat, Node>, ghost list: seq<Block>, ghost i: nat, ghost cur: seq<Block>)
      requires Coalescing(free, mem0, mem, list, i, cur)
      requires i < |cur| && f == cur[i].addr && f in mem && mem[f] == Node(cur[i].size, AddrAt(cur, i + 1))
      requires mem[f].next != END_OF_LIST && f + mem[f].size == mem[f].next
      modifies this`mem
      ensures i + 1 < |cur| && |MergeOnce(cur, i)| < |cur|
      ensures Coalescing(free, mem0, mem, list, i, MergeOnce(cur, i))
      ensures var r := MergeOnce(cur, i);
        i < |r| && f == r[i].addr && f in mem && mem[f] == Node(r[i].size, AddrAt(r, i + 1))
    {
      hide *;
      CoalesceNext(free, mem0, mem, list, i, cur);
      mem := mem[f := mem[f].(size := mem[f].size + mem[mem[f].next].size)];
      mem := mem[f := mem[f].(next := mem[mem[f].next].next)];
      CoalesceStep(free, mem0, old(mem), mem, list, i, cur);
    }

    // The last node before `ptr`.
    method FindPrev(ptr: nat) returns (prev: nat)
      requires Linked(free, mem, s.free) && Stacked(s.free)
      requires free < ptr < END_OF_LIST
      ensures var k := Below(s.free, ptr); 0 < k && prev == s.free[k - 1].addr
    {
      hide *;
      prev := free;
      ghost var p := 0;
      LinkedHead(free, mem, s.free);
      AddrThere(s.free, 0);
      BelowStep(s.free, ptr, 0);
      LinkedAt(free, mem, s.free, 0);
      while mem[prev].next != END_OF_LIST && mem[prev].next < ptr
        invariant p < |s.free| && p < Below(s.free, ptr)
        invariant prev == s.free[p].addr && prev in mem && mem[prev].next == AddrAt(s.free, p + 1)
        decreases |s.free| - p
      {
        prev, p := mem[prev].next, p + 1;
        AddrThere(s.free, p);
        LinkedAt(free, mem, s.free, p);
        BelowStep(s.free, ptr, p);
      }
      BelowStep(s.free, ptr, p + 1);
    }
  }

  // A list in which `Below` counts the nodes before an address.
  lemma BelowStep(free: seq<Block>, ptr: nat, p: nat)
    requires Stacked(free) && ptr < END_OF_LIST
    ensures AddrAt(free, p) < ptr ==> p < Below(free, ptr)
    ensures AddrAt(free, p) >= ptr ==> Below(free, ptr) <= p
  {
    var k := Below(free, ptr);
    assert k < p < |free| ==> free[k].addr < free[p].addr;
  }

  predicate Stacked(free: seq<Block>) {
    Ascending(free) && forall i :: 0 <= i < |free| ==> 0 < free[i].size && free[i].End() < END_OF_LIST
  }

  lemma NextNode(head: nat, mem: map<nat, Node>, blocks: seq<Block>, i: nat)
    requires Linked(head, mem, blocks) && Stacked(blocks) && AddrAt(blocks, i + 1) != END_OF_LIST
    ensures i + 1 < |blocks| && AddrAt(blocks, i + 1) == blocks[i + 1].addr && blocks[i + 1].addr in mem
    ensures mem[blocks[i + 1].addr] == Node(blocks[i + 1].size, AddrAt(blocks, i + 2))
    ensures i < |blocks| ==> blocks[i].addr != blocks[i + 1].addr
  {
  }

  lemma StackedAt(free: seq<Block>, i: nat, j: nat)
    requires Stacked(free) && i < j < |free|
    ensures free[i].End() <= free[j].addr && free[i].addr < free[j].addr
  {
  }

  lemma OkStacked(s: HeapState)
    requires Ok(s) && s.end < END_OF_LIST
    ensures Stacked(s.free)
  {
    InOrder(s, 0);
  }

  // ----- inserting -----

  // What is in memory once `b` has been linked in: its own node, and the link
  // that leads to it.
  ghost predicate SpliceStored(head: nat, mem: map<nat, Node>, free: seq<Block>, b: Block, head': nat,
      mem': map<nat, Node>)
  {
    var k := Below(free, b.addr);
    && head' == (if k == 0 then b.addr else head)
    && b.addr in mem' && mem'[b.addr] == Node(b.size, AddrAt(free, k))
    && (k > 0 ==> free[k - 1].addr in mem' && mem'[free[k - 1].addr] == Node(free[k - 1].size, b.addr))
    && AgreeOff(mem, mem', Touched(free, b))
  }

  function Touched(free: seq<Block>, b: Block): set<nat> {
    var k := Below(free, b.addr);
    if k == 0 then {b.addr} else {b.addr, free[k - 1].addr}
  }

  lemma SpliceNode(head: nat, mem: map<nat, Node>, free: seq<Block>, b: Block, head': nat, mem': map<nat, Node>, i: nat)
    requires Linked(head, mem, free) && Stacked(free) && SpliceStored(head, mem, free, b, head', mem')
    requires forall j :: 0 <= j < |free| ==> free[j].addr != b.addr
    requires i < |free|
    ensures free[i].addr in mem'
    ensures mem'[free[i].addr] ==
      Node(free[i].size, if i + 1 == Below(free, b.addr) then b.addr else AddrAt(free, i + 1))
  {
    var k := Below(free, b.addr);
    LinkedAt(head, mem, free, i);
    assert free[i].addr !in Touched(free, b) ==> Same(mem, mem', free[i].addr);
    assert k > 0 && i < k - 1 ==> free[i].addr < free[k - 1].addr;
    assert k > 0 && k - 1 < i ==> free[k - 1].addr < free[i].addr;
  }

  lemma SpliceLinked(head: nat, mem: map<nat, Node>, free: seq<Block>, b: Block, head': nat, mem': map<nat, Node>)
    requires Linked(head, mem, free) && Stacked(free) && SpliceStored(head, mem, free, b, head', mem')
    requires forall j :: 0 <= j < |free| ==> free[j].addr != b.addr
    ensures Linked(head', mem', Spliced(free, b))
  {
    var k, r := Below(free, b.addr), Spliced(free, b);
    hide Linked, Stacked, SpliceStored, Spliced;
    SpliceNew(head, mem, free, b, head', mem');
    SplicedLength(free, b);
    SplicedAt(free, b, 0);
    assert head' == AddrAt(r, 0);
    forall i | 0 <= i < |r|
      ensures r[i].addr in mem' && mem'[r[i].addr] == Node(r[i].size, AddrAt(r, i + 1))
    {
      SplicedNode(head, mem, free, b, head', mem', i);
    }
    LinkedBy(head', mem', r);
  }

  lemma SplicedNode(head: nat, mem: map<nat, Node>, free: seq<Block>, b: Block, head': nat, mem': map<nat, Node>,
      i: nat)
    requires Linked(head, mem, free) && Stacked(free) && SpliceStored(head, mem, free, b, head', mem')
    requires forall j :: 0 <= j < |free| ==> free[j].addr != b.addr
    requires i < |Spliced(free, b)|
    ensures var r := Spliced(free, b);
      r[i].addr in mem' && mem'[r[i].addr] == Node(r[i].size, AddrAt(r, i + 1))
  {
    var k := Below(free, b.addr);
    hide Linked, Stacked, SpliceStored, Spliced;
    SplicedLength(free, b);
    SplicedAt(free, b, i);
    if i < |free| {
      SplicedAt(free, b, i + 1);
    }
    if i == k {
      SpliceNew(head, mem, free, b, head', mem');
    } else {
      SpliceNode(head, mem, free, b, head', mem', if i < k then i else i - 1);
    }
  }

  lemma SplicedLength(free: seq<Block>, b: Block)
    ensures |Spliced(free, b)| == |free| + 1
  {
  }

  lemma LinkedBy(head: nat, mem: map<nat, Node>, blocks: seq<Block>)
    requires head == AddrAt(blocks, 0)
    requires forall i :: 0 <= i < |blocks| ==>
      blocks[i].addr in mem && mem[blocks[i].addr] == Node(blocks[i].size, AddrAt(blocks, i + 1))
    ensures Linked(head, mem, blocks)
  {
  }

  lemma SpliceNew(head: nat, mem: map<nat, Node>, free: seq<Block>, b: Block, head': nat, mem': map<nat, Node>)
    requires Linked(head, mem, free) && SpliceStored(head, mem, free, b, head', mem')
    requires forall j :: 0 <= j < |free| ==> free[j].addr != b.addr
    ensures head == AddrAt(free, 0)
    ensures b.addr in mem' && mem'[b.addr] == Node(b.size, AddrAt(free, Below(free, b.addr)))
    ensures Below(free, b.addr) == 0 ==> head' == b.addr
    ensures Below(free, b.addr) > 0 ==> head' == head
  {
  }

  lemma SpliceFacts(s: HeapState, b: Block)
    requires Ok(s) && s.end < END_OF_LIST && b in s.live
    ensures Stacked(s.free) && Stacked(Spliced(s.free, b))
    ensures forall i :: 0 <= i < |s.free| ==> s.free[i].addr != b.addr
    ensures b.addr < END_OF_LIST
  {
    OkStacked(s);
    assert Fits(s.base, s.end, b);
    forall i | 0 <= i < |s.free|
      ensures Disjoint(b, s.free[i])
    {
      assert ApartFrom(s.free[i], s.live);
    }
    SplicedKeeps(s.base, s.end, s.free, s.live - {b}, b);
  }

  // Only the new node and the one before it are written, first by the insertion
  // and then by the merge that starts at `f`.
  lemma SpliceSpares(s: HeapState, b: Block, m1: map<nat, Node>, m2: map<nat, Node>, m3: map<nat, Node>, f: nat)
    requires Ok(s) && b in s.live
    requires f in Touched(s.free, b)
    requires AgreeOff(m1, m2, Touched(s.free, b)) && AgreeOff(m2, m3, {f})
    ensures Spared(s.live - {b}, m1, m3)
  {
    AgreeTrans(m1, m2, m3, Touched(s.free, b), {f});
    var k := Below(s.free, b.addr);
    forall c, a | c in s.live - {b} && c.Holds(a)
      ensures Same(m1, m3, a)
    {
      assert Disjoint(b, c) && Fits(s.base, s.end, b);
      if k > 0 {
        assert ApartFrom(s.free[k - 1], s.live) && Fits(s.base, s.end, s.free[k - 1]);
      }
      assert a !in Touched(s.free, b) + {f};
    }
  }

  // ----- merging -----

  // The loop of `coalesce_from`: part of the way from `list` to its merge at i.
  ghost predicate Coalescing(head: nat, mem0: map<nat, Node>, mem: map<nat, Node>, list: seq<Block>, i: nat,
      cur: seq<Block>)
  {
    && Linked(head, mem, cur) && Stacked(cur)
    && i < |list| && i < |cur| && cur[i].addr == list[i].addr
    && MergeAt(cur, i) == MergeAt(list, i)
    && AgreeOff(mem0, mem, {list[i].addr})
  }

  lemma CoalesceStart(head: nat, mem: map<nat, Node>, list: seq<Block>, i: nat)
    requires Linked(head, mem, list) && Stacked(list) && i < |list|
    ensures Coalescing(head, mem, mem, list, i, list)
    ensures list[i].addr in mem && mem[list[i].addr] == Node(list[i].size, AddrAt(list, i + 1))
  {
  }

  lemma CoalesceNext(head: nat, mem0: map<nat, Node>, mem: map<nat, Node>, list: seq<Block>, i: nat, cur: seq<Block>)
    requires Coalescing(head, mem0, mem, list, i, cur) && AddrAt(cur, i + 1) != END_OF_LIST
    ensures i + 1 < |cur| && AddrAt(cur, i + 1) == cur[i + 1].addr && cur[i + 1].addr in mem
    ensures cur[i + 1].addr != cur[i].addr
    ensures mem[cur[i + 1].addr] == Node(cur[i + 1].size, AddrAt(cur, i + 2))
  {
    NextNode(head, mem, cur, i);
  }

  lemma CoalesceStep(head: nat, mem0: map<nat, Node>, mem: map<nat, Node>, mem': map<nat, Node>, list: seq<Block>,
      i: nat, cur: seq<Block>)
    requires Coalescing(head, mem0, mem, list, i, cur)
    requires i + 1 < |cur| && cur[i].addr + cur[i].size == cur[i + 1].addr
    requires mem' == mem[cur[i].addr := Node(cur[i].size + cur[i + 1].size, AddrAt(cur, i + 2))]
    ensures Coalescing(head, mem0, mem', list, i, MergeOnce(cur, i)) && i < |MergeOnce(cur, i)| < |cur|
    ensures var r := MergeOnce(cur, i);
      r[i].addr == cur[i].addr && r[i].addr in mem' && mem'[r[i].addr] == Node(r[i].size, AddrAt(r, i + 1))
  {
    hide Linked, Stacked, AgreeOff;
    AgreeUpdate(mem, cur[i].addr, mem'[cur[i].addr]);
    AgreeTrans(mem0, mem, mem', {list[i].addr}, {cur[i].addr});
    assert {list[i].addr} + {cur[i].addr} == {list[i].addr};
    MergeLinked(head, mem, mem', cur, i);
    LinkedAt(head, mem', MergeOnce(cur, i), i);
  }

  lemma CoalesceEnd(head: nat, mem0: map<nat, Node>, mem: map<nat, Node>, list: seq<Block>, i: nat, cur: seq<Block>)
    requires Coalescing(head, mem0, mem, list, i, cur)
    requires AddrAt(cur, i + 1) == END_OF_LIST || cur[i].addr + cur[i].size != AddrAt(cur, i + 1)
    ensures Linked(head, mem, MergeAt(list, i)) && AgreeOff(mem0, mem, {list[i].addr})
  {
    MergeDone(cur, i);
  }

  lemma MergeDone(list: seq<Block>, i: nat)
    requires Stacked(list) && i < |list|
    requires AddrAt(list, i + 1) != END_OF_LIST ==> list[i].addr + list[i].size != AddrAt(list, i + 1)
    ensures MergeAt(list, i) == list
  {
  }

  lemma MergeOnceAt(list: seq<Block>, i: nat, j: nat)
    requires i + 1 < |list| && j < |list| - 1
    ensures |MergeOnce(list, i)| == |list| - 1
    ensures MergeOnce(list, i)[j] ==
      if j < i then list[j] else if j == i then Block(list[i].addr, list[i].size + list[i + 1].size) else list[j + 1]
  {
  }

  lemma MergeStacked(list: seq<Block>, i: nat)
    requires Stacked(list)
    requires i + 1 < |list| && list[i].End() == list[i + 1].addr
    ensures Stacked(MergeOnce(list, i))
  {
    var r := MergeOnce(list, i);
    MergeOnceAt(list, i, i);
    hide MergeOnce;
    forall j | 0 <= j < |r|
      ensures 0 < r[j].size && r[j].End() < END_OF_LIST
    {
      MergeOnceAt(list, i, j);
    }
    forall j, l | 0 <= j < l < |r|
      ensures r[j].End() <= r[l].addr
    {
      MergeOnceAt(list, i, j);
      MergeOnceAt(list, i, l);
    }
  }

  lemma MergeNode(head: nat, mem: map<nat, Node>, mem': map<nat, Node>, list: seq<Block>, i: nat, l: nat)
    requires Linked(head, mem, list) && Stacked(list)
    requires i + 1 < |list| && l < |list|
    requires mem' == mem[list[i].addr := Node(list[i].size + list[i + 1].size, AddrAt(list, i + 2))]
    ensures list[l].addr in mem'
    ensures mem'[list[l].addr] ==
      if l == i then Node(list[i].size + list[i + 1].size, AddrAt(list, i + 2))
        else Node(list[l].size, AddrAt(list, l + 1))
  {
    LinkedAt(head, mem, list, l);
    if l < i {
      StackedAt(list, l, i);
    } else if l > i {
      StackedAt(list, i, l);
    }
  }

  lemma MergeLinked(head: nat, mem: map<nat, Node>, mem': map<nat, Node>, list: seq<Block>, i: nat)
    requires Linked(head, mem, list) && Stacked(list)
    requires i + 1 < |list| && list[i].End() == list[i + 1].addr
    requires mem' == mem[list[i].addr := Node(list[i].size + list[i + 1].size, AddrAt(list, i + 2))]
    ensures Linked(head, mem', MergeOnce(list, i)) && Stacked(MergeOnce(list, i))
  {
    var r := MergeOnce(list, i);
    MergeStacked(list, i);
    MergeOnceAt(list, i, 0);
    LinkedAt(head, mem, list, 0);
    hide MergeOnce, Linked, Stacked;
    forall j | 0 <= j < |r|
      ensures r[j].addr in mem' && mem'[r[j].addr] == Node(r[j].size, AddrAt(r, j + 1))
    {
      MergedNode(head, mem, mem', list, i, j);
    }
    LinkedBy(head, mem', r);
  }

  lemma MergedSize(list: seq<Block>, i: nat)
    requires i + 1 < |list|
    ensures |MergeOnce(list, i)| == |list| - 1
  {
  }

  lemma MergedAddr(list: seq<Block>, i: nat, j: nat)
    requires i + 1 < |list|
    ensures AddrAt(MergeOnce(list, i), j) == AddrAt(list, if j <= i then j else j + 1)
  {
    if j < |list| - 1 {
      MergeOnceAt(list, i, j);
    }
    MergedSize(list, i);
    hide MergeOnce;
  }

  lemma MergedNode(head: nat, mem: map<nat, Node>, mem': map<nat, Node>, list: seq<Block>, i: nat, j: nat)
    requires Linked(head, mem, list) && Stacked(list)
    requires i + 1 < |list| && j < |MergeOnce(list, i)|
    requires mem' == mem[list[i].addr := Node(list[i].size + list[i + 1].size, AddrAt(list, i + 2))]
    ensures var r := MergeOnce(list, i);
      r[j].addr in mem' && mem'[r[j].addr] == Node(r[j].size, AddrAt(r, j + 1))
  {
    hide *;
    MergedSize(list, i);
    var l := if j <= i then j else j + 1;
    MergeNode(head, mem, mem', list, i, l);
    MergeOnceAt(list, i, j);
    MergedAddr(list, i, j + 1);
    assert MergeOnce(list, i)[j].addr == list[l].addr;
  }

  lemma LinkedAt(head: nat, mem: map<nat, Node>, blocks: seq<Block>, i: nat)
    requires Linked(head, mem, blocks) && i < |blocks|
    ensures head == AddrAt(blocks, 0)
    ensures blocks[i].addr in mem && mem[blocks[i].addr] == Node(blocks[i].size, AddrAt(blocks, i + 1))
  {
  }

  lemma FirstFitStep(free: seq<Block>, k: nat, size: nat)
    requires k < |free| && free[k].size < size
    ensures FirstFit(free[k..], size) == 1 + FirstFit(free[k + 1..], size)
  {
    assert free[k..][1..] == free[k + 1..];
  }

  // The link that holds the address of block `k`.
  function LinkTo(free: seq<Block>, k: nat): Link
    requires k <= |free|
  {
    if k == 0 then Head else NextOf(free[k - 1].addr)
  }

  lemma Earlier(s: HeapState, i: nat, j: nat)
    requires Ok(s) && i < j < |s.free|
    ensures s.free[i].addr < s.free[j].addr
  {
    InOrder(s, i);
  }

  lemma EndOnlyAtEnd(s: HeapState, k: nat)
    requires Ok(s) && s.end < END_OF_LIST && k <= |s.free|
    ensures AddrAt(s.free, k) == END_OF_LIST <==> k == |s.free|
  {
    InOrder(s, 0);
  }

  lemma OnlyWholeBlockSpans(s: HeapState)
    requires Ok(s) && |s.free| > 0 && s.free[0] == Block(s.base, s.end - s.base)
    ensures Whole(s)
  {
    InOrder(s, 0);
    assert s.free == [s.free[0]];
  }

  // What `alloc` leaves in memory: the remainder's node if there is one, then the
  // store through `fp`.
  ghost predicate CutStored(free: seq<Block>, mem: map<nat, Node>, mem': map<nat, Node>, head': nat, k: nat, size: nat)
    requires k < |free| && size <= free[k].size
  {
    var b := free[k];
    var at := if size < b.size then RestAt(b, size) else AddrAt(free, k + 1);
    var mem1 := if size < b.size then mem[at := Node(b.size - size, AddrAt(free, k + 1))] else mem;
    if k == 0 then
      head' == at && mem' == mem1
    else
      head' == AddrAt(free, 0) && mem' == mem1[free[k - 1].addr := Node(free[k - 1].size, at)]
  }

  lemma CutNodeBefore(free: seq<Block>, mem: map<nat, Node>, mem': map<nat, Node>, head': nat, k: nat, size: nat,
      i: nat)
    requires Stacked(free) && Linked(AddrAt(free, 0), mem, free)
    requires k < |free| && size <= free[k].size
    requires CutStored(free, mem, mem', head', k, size)
    requires i < k
    ensures free[i].addr in mem'
    ensures mem'[free[i].addr].size == free[i].size
    ensures i + 1 < k ==> mem'[free[i].addr].next == free[i + 1].addr
    ensures i + 1 == k ==>
      mem'[free[i].addr].next == if size < free[k].size then RestAt(free[k], size) else AddrAt(free, k + 1)
  {
    hide Linked, Stacked;
    LinkedAt(AddrAt(free, 0), mem, free, i);
    StackedAt(free, i, k);
    if i < k - 1 {
      StackedAt(free, i, k - 1);
      StackedAt(free, k - 1, k);
    }
  }

  lemma CutNodeAfter(free: seq<Block>, mem: map<nat, Node>, mem': map<nat, Node>, head': nat, k: nat, size: nat, i: nat)
    requires Stacked(free) && Linked(AddrAt(free, 0), mem, free)
    requires k < i < |free| && size <= free[k].size
    requires CutStored(free, mem, mem', head', k, size)
    ensures free[i].addr in mem' && mem'[free[i].addr] == Node(free[i].size, AddrAt(free, i + 1))
  {
    hide Linked, Stacked;
    LinkedAt(AddrAt(free, 0), mem, free, i);
    StackedAt(free, k, i);
    if k > 0 {
      StackedAt(free, k - 1, i);
    }
  }

  lemma CutNodeRest(free: seq<Block>, mem: map<nat, Node>, mem': map<nat, Node>, head': nat, k: nat, size: nat)
    requires Stacked(free)
    requires k < |free| && size < free[k].size
    requires CutStored(free, mem, mem', head', k, size)
    ensures var at := RestAt(free[k], size);
      at in mem' && mem'[at] == Node(free[k].size - size, AddrAt(free, k + 1))
  {
    assert k > 0 ==> free[k - 1].addr < free[k].addr;
  }

  lemma CutNode(free: seq<Block>, mem: map<nat, Node>, mem': map<nat, Node>, head': nat, k: nat, size: nat, i: nat)
    requires Stacked(free) && Linked(AddrAt(free, 0), mem, free)
    requires k < |free| && size <= free[k].size
    requires CutStored(free, mem, mem', head', k, size)
    requires i < |Cut(free, k, size)|
    ensures var r := Cut(free, k, size);
      r[i].addr in mem' && mem'[r[i].addr] == Node(r[i].size, AddrAt(r, i + 1))
  {
    hide Linked, CutStored, Stacked, Cut;
    var d := CutLength(free, k, size);
    CutIndex(free, k, size, i);
    if i + 1 < |free| - 1 + d {
      CutIndex(free, k, size, i + 1);
    }
    if i < k {
      CutNodeBefore(free, mem, mem', head', k, size, i);
    } else if i == k && d == 1 {
      CutNodeRest(free, mem, mem', head', k, size);
    } else {
      CutNodeAfter(free, mem, mem', head', k, size, i + 1 - d);
    }
  }

  lemma CutLength(free: seq<Block>, k: nat, size: nat) returns (d: nat)
    requires k < |free| && size <= free[k].size
    ensures d == (if size < free[k].size then 1 else 0) && |Cut(free, k, size)| == |free| - 1 + d
  {
    d := if size < free[k].size then 1 else 0;
  }

  lemma CutIndex(free: seq<Block>, k: nat, size: nat, j: nat)
    requires k < |free| && size <= free[k].size
    requires j < |Cut(free, k, size)|
    ensures var d := if size < free[k].size then 1 else 0;
      Cut(free, k, size)[j] ==
        if j < k then free[j]
        else if j == k && d == 1 then Block(RestAt(free[k], size), free[k].size - size)
        else free[j + 1 - d]
  {
    CutAt(free, k, size, j);
  }

  lemma CutLinked(free: seq<Block>, mem: map<nat, Node>, mem': map<nat, Node>, head': nat, k: nat, size: nat)
    requires Stacked(free) && Linked(AddrAt(free, 0), mem, free)
    requires k < |free| && size <= free[k].size
    requires CutStored(free, mem, mem', head', k, size)
    ensures Linked(head', mem', Cut(free, k, size))
  {
    hide Cut;
    var r := Cut(free, k, size);
    assert head' == AddrAt(r, 0) by {
      var d := CutLength(free, k, size);
      if |r| > 0 {
        CutIndex(free, k, size, 0);
      }
    }
    forall i | 0 <= i < |r|
      ensures r[i].addr in mem' && mem'[r[i].addr] == Node(r[i].size, AddrAt(r, i + 1))
    {
      CutNode(free, mem, mem', head', k, size, i);
    }
  }

  // Allocations keep their memory.
  lemma CutSpares(free: seq<Block>, mem: map<nat, Node>, mem': map<nat, Node>, head': nat, k: nat, size: nat, c: Block,
      a: nat)
    requires Stacked(free)
    requires k < |free| && size <= free[k].size && CutStored(free, mem, mem', head', k, size)
    requires c.Holds(a) && forall i :: 0 <= i < |free| ==> Disjoint(free[i], c)
    ensures Same(mem, mem', a)
  {
    assert Disjoint(free[k], c);
    assert k > 0 ==> Disjoint(free[k - 1], c);
  }

  // Memory inside allocations is as it was.
  ghost predicate Spared(live: set<Block>, mem: map<nat, Node>, mem': map<nat, Node>) {
    forall b, a :: b in live && b.Holds(a) ==> Same(mem, mem', a)
  }

  lemma AllocStored(s: HeapState, head: nat, mem: map<nat, Node>, mem': map<nat, Node>, head': nat, size: nat)
    requires Ok(s) && s.end < END_OF_LIST && Linked(head, mem, s.free)
    requires var k := FirstFit(s.free, size); k < |s.free| && CutStored(s.free, mem, mem', head', k, size)
    ensures AllocStep(s, size).Some?
    ensures var (s', p) := AllocStep(s, size).value;
      && s'.base == s.base && s'.end == s.end && p == s.free[FirstFit(s.free, size)].addr
      && (Ok(s') <==> WholeNodes(size)) && Linked(head', mem', s'.free) && Spared(s.live, mem, mem')
      && Block(p, size) !in s.live
  {
    var k := FirstFit(s.free, size);
    AllocIs(s, size);
    hide *;
    OkStacked(s);
    NotLive(s, k, size);
    OkExactly(s, size);
    LinkedHead(head, mem, s.free);
    CutLinked(s.free, mem, mem', head', k, size);
    LiveSpared(s, mem, mem', head', k, size);
  }

  // What an allocation comes to when it is served from block `k`.
  lemma AllocIs(s: HeapState, size: nat)
    requires FirstFit(s.free, size) < |s.free|
    ensures var k := FirstFit(s.free, size);
      && size <= s.free[k].size && AllocStep(s, size).Some?
      && var (s', p) := AllocStep(s, size).value;
         && s'.base == s.base && s'.end == s.end && p == s.free[k].addr && s'.free == Cut(s.free, k, size)
  {
    hide FirstFit;
  }

  lemma AddrThere(blocks: seq<Block>, i: nat)
    ensures AddrAt(blocks, i) != END_OF_LIST ==> i < |blocks| && blocks[i].addr == AddrAt(blocks, i)
  {
  }

  lemma LinkedHead(head: nat, mem: map<nat, Node>, free: seq<Block>)
    requires Linked(head, mem, free)
    ensures head == AddrAt(free, 0)
  {
    hide AddrAt;
  }

  lemma LiveSpared(s: HeapState, mem: map<nat, Node>, mem': map<nat, Node>, head': nat, k: nat, size: nat)
    requires Ok(s) && Stacked(s.free) && k < |s.free| && size <= s.free[k].size
    requires CutStored(s.free, mem, mem', head', k, size)
    ensures Spared(s.live, mem, mem')
  {
    forall b, a | b in s.live && b.Holds(a)
      ensures Same(mem, mem', a)
    {
      assert forall i :: 0 <= i < |s.free| ==> ApartFrom(s.free[i], s.live);
      hide CutStored, Stacked, Same;
      CutSpares(s.free, mem, mem', head', k, size, b, a);
    }
  }

  lemma OkExactly(s: HeapState, size: nat)
    requires Ok(s) && AllocStep(s, size).Some?
    ensures Ok(AllocStep(s, size).value.0) <==> WholeNodes(size)
  {
    AllocKeepsExactly(s, size);
    if WholeNodes(size) {
      AllocKeeps(s, size);
    }
    hide AllocStep, Tiles;
  }

  lemma NotLive(s: HeapState, k: nat, size: nat)
    requires Ok(s) && k < |s.free| && size <= s.free[k].size
    ensures Block(s.free[k].addr, size) !in s.live
  {
    assert ApartFrom(s.free[k], s.live) && Fits(s.base, s.end, s.free[k]);
    assert Block(s.free[k].addr, size) in s.live ==> Fits(s.base, s.end, Block(s.free[k].addr, size));
  }
}
