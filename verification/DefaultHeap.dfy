/** `default_heap`: allocations that know their own size. */
module DefaultHeap {
  import opened MemoryTypes
  import opened Options
  import opened HeapSpec
  import opened HeapProofs
  import opened Heap

  // Bytes in front of the payload: the block's size and a cookie.
  const HEADER: nat := 16
  const MAX_REQUEST: nat := 0xFFFF_FFFF_FFFF_FFE0

  function RoundUp(val: nat, align: nat): nat
    requires 0 < align
  {
    if val % align != 0 then val + align - val % align else val
  }

  // `round_up(size + align, align)` in 64-bit arithmetic.
  function Rounded(size: nat): nat {
    RoundUp((size + HEADER) % WORD, HEADER) % WORD
  }

  /** The block has room for the header and the payload exactly when neither the
      addition nor the rounding wraps, and room for nothing when the rounding does. */
  lemma RoundedHoldsExactly(size: nat)
    requires size < WORD
    ensures Rounded(size) >= size + HEADER <==> size <= MAX_REQUEST
    ensures Rounded(size) == 0 <==> MAX_REQUEST < size <= WORD - HEADER
    ensures Rounded(size) % NODE_SIZE == 0
  {
  }

  class DefaultHeap {
    const heap: SimpleHeap

    ghost predicate Valid()
      reads this, heap
    {
      heap.Valid() && Headed(heap.s.live, heap.mem)
    }

    constructor (base: nat, length: nat)
      requires NODE_SIZE <= length && length % NODE_SIZE == 0
      requires base + length < END_OF_LIST
      ensures Valid() && fresh(heap) && heap.base == base && heap.s.live == {}
    {
      heap := new SimpleHeap(base, length);
    }

    /** The payload lies inside a fresh block, behind the header. A request that rounds to
        nothing has its header written over the head of the free list, which then leads to
        itself; after any other the heap is sound. */
    method Alloc(size: nat) returns (r: Option<nat>)
      requires Valid() && size < WORD
      modifies heap
      ensures Valid() <==> r.None? || Rounded(size) != 0
      ensures r.None? ==> heap.s == old(heap.s) && AllocStep(old(heap.s), Rounded(size)).None?
      ensures r.Some? ==> HEADER <= r.value && AllocStep(old(heap.s), Rounded(size)) == Some((heap.s, r.value - HEADER))
      ensures r.Some? ==> Block(r.value - HEADER, Rounded(size)) !in old(heap.s.live)
      ensures r.Some? && Rounded(size) != 0 && heap.base % HEADER == 0 ==> r.value % HEADER == 0
      ensures r.Some? && Rounded(size) == 0 ==>
        heap.free == r.value - HEADER && heap.free in heap.mem && heap.mem[heap.free] == Node(0, heap.free)
    {
      RoundedHoldsExactly(size);
      var blockSize := Rounded(size);
      hide Rounded, RoundUp, AllocStep, Ok;
      r := heap.Alloc(blockSize);
      if r.Some? {
        AllocatedLive(old(heap.s), blockSize);
        if blockSize == 0 {
          HeadLoops(old(heap.s), heap.s, heap.free, heap.mem, r.value);
          heap.mem := heap.mem[r.value := Node(0, r.value)];
        } else {
          PutHeader(r.value, blockSize, old(heap.s.live), old(heap.mem));
          PayloadAligned(heap.s, Block(r.value, blockSize));
        }
        hide *;
        r := Some(r.value + HEADER);
      }
    }

    // The size and the cookie, in front of the payload.
    method PutHeader(p: nat, size: nat, ghost live: set<Block>, ghost mem: map<nat, Node>)
      requires heap.Valid() && heap.s.live == live + {Block(p, size)} && Block(p, size) !in live
      requires Headed(live, mem) && Spared(live, mem, heap.mem)
      modifies heap`mem
      ensures Valid()
    {
      ghost var b := Block(p, size);
      HoldsOwnStart(heap.s, b);
      LiveWrite(heap.s, heap.free, heap.mem, b, p, Node(size, p));
      NewHeader(heap.s, live, b, mem, heap.mem);
      heap.mem := heap.mem[p := Node(size, p)];
    }

    /** The header gives back the size that `Alloc` chose, and the cookie matches. */
    method Free(ptr: nat, ghost b: Block)
      requires Valid() && b in heap.s.live && ptr == b.addr + HEADER
      modifies heap
      ensures Valid() && heap.s == FreeStep(old(heap.s), b)
    {
      var p := ptr - HEADER;
      var size := heap.mem[p].size;
      assert heap.mem[p].next == p && Block(p, size) == b;
      HoldsOwnStart(heap.s, b);
      LiveWrite(heap.s, heap.free, heap.mem, b, p, heap.mem[p].(next := 0));
      heap.mem := heap.mem[p := heap.mem[p].(next := 0)];
      heap.Free(p, size);
      KeepHeaders(old(heap.s), b, old(heap.mem), Node(size, 0), heap.mem);
    }

    /** A store by the owner of `b` into its payload. */
    method ClientWrite(a: nat, n: Node, ghost b: Block)
      requires Valid() && b in heap.s.live && b.addr + HEADER <= a < b.End()
      modifies heap
      ensures Valid() && heap.s == old(heap.s) && heap.mem == old(heap.mem)[a := n]
    {
      LiveWrite(heap.s, heap.free, heap.mem, b, a, n);
      PayloadApartFromHeaders(heap.s, b, a);
      heap.mem := heap.mem[a := n];
    }
  }

  lemma AllocatedLive(s: HeapState, size: nat)
    requires AllocStep(s, size).Some?
    ensures var (t, p) := AllocStep(s, size).value; t.live == s.live + {Block(p, size)} && t.base == s.base
  {
  }

  // An allocation of nothing is made at the head of the list, and breaks it.
  lemma HeadLoops(s: HeapState, s': HeapState, head: nat, mem: map<nat, Node>, p: nat)
    requires Ok(s) && AllocStep(s, 0) == Some((s', p)) && Linked(head, mem, s'.free)
    ensures head == p && !Ok(s')
  {
    AllocKeepsExactly(s, 0);
    assert FirstFit(s.free, 0) == 0;
    assert Fits(s.base, s.end, s.free[0]);
    assert s'.free[0] == s.free[0];
  }

  lemma PayloadAligned(s: HeapState, b: Block)
    requires Ok(s) && b in s.live
    ensures s.base % HEADER == 0 ==> (b.addr + HEADER) % HEADER == 0
  {
    assert Fits(s.base, s.end, b);
    hide Ok;
    Aligned(s.base, b.addr);
  }

  lemma Aligned(base: nat, a: nat)
    requires base <= a && (a - base) % 16 == 0
    ensures base % 16 == 0 ==> (a + 16) % 16 == 0
  {
  }

  // Every live block starts with its size and its cookie.
  ghost predicate Headed(live: set<Block>, mem: map<nat, Node>) {
    forall b :: b in live ==> b.addr in mem && mem[b.addr] == Node(b.size, b.addr)
  }

  lemma HoldsOwnStart(s: HeapState, b: Block)
    requires Ok(s) && b in s.live
    ensures b.Holds(b.addr)
  {
    assert Fits(s.base, s.end, b);
  }

  // Memory inside an allocation is not part of the free list.
  lemma LiveWrite(s: HeapState, head: nat, mem: map<nat, Node>, b: Block, a: nat, n: Node)
    requires Ok(s) && Linked(head, mem, s.free)
    requires b in s.live && b.Holds(a)
    ensures Linked(head, mem[a := n], s.free)
  {
    forall i | 0 <= i < |s.free|
      ensures s.free[i].addr != a
    {
      assert ApartFrom(s.free[i], s.live) && Fits(s.base, s.end, s.free[i]);
    }
  }

  lemma PayloadApartFromHeaders(s: HeapState, b: Block, a: nat)
    requires Ok(s) && b in s.live && b.addr < a < b.End()
    ensures forall c :: c in s.live ==> c.addr != a
  {
    forall c | c in s.live
      ensures c.addr != a
    {
      assert c != b ==> Disjoint(b, c) && Fits(s.base, s.end, c);
    }
  }

  lemma NewHeader(s: HeapState, before: set<Block>, b: Block, mem: map<nat, Node>, mem': map<nat, Node>)
    requires Ok(s) && b in s.live && s.live == before + {b} && b !in before
    requires Headed(before, mem) && Spared(before, mem, mem')
    ensures Headed(s.live, mem'[b.addr := Node(b.size, b.addr)])
  {
    forall c | c in before
      ensures c.addr != b.addr && c.addr in mem' && mem'[c.addr] == Node(c.size, c.addr)
    {
      HoldsOwnStart(s, c);
      assert Disjoint(b, c) && Fits(s.base, s.end, b);
    }
  }

  lemma KeepHeaders(s: HeapState, b: Block, mem: map<nat, Node>, n: Node, mem': map<nat, Node>)
    requires Ok(s) && b in s.live && Headed(s.live, mem)
    requires Spared(s.live - {b}, mem[b.addr := n], mem')
    ensures Headed(s.live - {b}, mem')
  {
    forall c | c in s.live - {b}
      ensures c.addr in mem' && mem'[c.addr] == Node(c.size, c.addr)
    {
      HoldsOwnStart(s, c);
      assert Disjoint(b, c) && Fits(s.base, s.end, b);
      assert Same(mem[b.addr := n], mem', c.addr);
    }
  }

  /** A payload of the size asked for overlaps no other allocation, header included. */
  lemma PayloadsDisjoint(s: HeapState, b: Block, c: Block, size: nat)
    requires Ok(s) && b in s.live && c in s.live && b != c
    requires b.size == Rounded(size) && size <= MAX_REQUEST
    ensures b.addr + HEADER + size <= c.addr || c.End() <= b.addr
  {
    RoundedHoldsExactly(size);
    assert Disjoint(b, c);
  }
}
