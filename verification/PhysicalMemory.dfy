/** Physical memory: the page allocator and the tables that live in its pages. */
module PhysicalMemory {
  import opened Options
  import opened MemoryTypes
  import opened HeapSpec
  import opened HeapProofs
  import opened Heap
  import opened PageTables
  import opened PageWalks

  // ----- the allocator deals in whole pages -----

  predicate PageBlock(b: Block) {
    b.addr % PAGE_SIZE == 0 && b.size % PAGE_SIZE == 0
  }

  ghost predicate Paged(s: HeapState) {
    (forall i :: 0 <= i < |s.free| ==> PageBlock(s.free[i])) && (forall b :: b in s.live ==> PageBlock(b))
  }

  lemma SumsOfPages(a: nat, b: nat)
    requires a % PAGE_SIZE == 0 && b % PAGE_SIZE == 0
    ensures (a + b) % PAGE_SIZE == 0 && (b <= a ==> (a - b) % PAGE_SIZE == 0)
    ensures a % NODE_SIZE == 0
  {
    var x, y := a / 0x1000, b / 0x1000;
    assert a == 0x1000 * x && b == 0x1000 * y;
    WholePage(x + y);
    WholePage(x);
    if b <= a {
      WholePage(x - y);
    }
  }

  lemma WholePage(x: nat)
    ensures 0x1000 * x % 0x1000 == 0 && 0x1000 * x % 16 == 0
  {
    WholeNode(0x100 * x);
  }

  lemma WholeNode(x: nat)
    ensures 16 * x % 16 == 0
  {
  }

  lemma AllocPaged(s: HeapState, size: nat)
    requires Paged(s) && size % PAGE_SIZE == 0 && AllocStep(s, size).Some?
    ensures Paged(AllocStep(s, size).value.0)
    ensures AllocStep(s, size).value.1 % PAGE_SIZE == 0
  {
    var k := FirstFit(s.free, size);
    var s' := AllocStep(s, size).value.0;
    var b := s.free[k];
    assert PageBlock(b);
    SumsOfPages(b.addr, size);
    SumsOfPages(b.size, size);
    SumsOfPages(size, size);
    assert s'.free == Cut(s.free, k, size);
    hide Cut, AllocStep;
    forall i | 0 <= i < |s'.free|
      ensures PageBlock(s'.free[i])
    {
      CutIndex(s.free, k, size, i);
    }
  }

  lemma {:induction false} MergePaged(free: seq<Block>, i: nat)
    requires i < |free| && forall j :: 0 <= j < |free| ==> PageBlock(free[j])
    ensures forall j :: 0 <= j < |MergeAt(free, i)| ==> PageBlock(MergeAt(free, i)[j])
    decreases |free|
  {
    if i + 1 < |free| && free[i].End() == free[i + 1].addr {
      var r := MergeOnce(free, i);
      forall j | 0 <= j < |r|
        ensures PageBlock(r[j])
      {
        MergeOnceAt(free, i, j);
      }
      MergePaged(r, i);
    }
  }

  lemma FreePaged(s: HeapState, b: Block)
    requires Paged(s) && b in s.live
    ensures Paged(FreeStep(s, b))
  {
    var k, r := Below(s.free, b.addr), Spliced(s.free, b);
    forall j | 0 <= j < |r|
      ensures PageBlock(r[j])
    {
      SplicedAt(s.free, b, j);
    }
    MergePaged(r, if k == 0 then 0 else k - 1);
  }

  lemma InitPaged(base: nat, length: nat)
    requires 0 < length && length % PAGE_SIZE == 0 && base % PAGE_SIZE == 0
    ensures Paged(Init(base, length))
  {
    SumsOfPages(length, length);
    InitOk(base, length);
  }

  // ----- pages that hold tables -----

  ghost predicate Backed(s: HeapState, places: map<nat, Place>) {
    forall t :: t in places ==> Block(t, PAGE_SIZE) in s.live
  }

  class Memory {
    const heap: SimpleHeap
    var frames: Frames
    ghost var places: map<nat, Place>
    ghost var kernel: nat
    // The tables given back so far, in that order.
    ghost var freed: seq<nat>

    // The allocator's side: usable also while tables are being torn down.
    ghost predicate Pages()
      reads this, heap
    {
      heap.Valid() && heap.base % PAGE_SIZE == 0 && Paged(heap.s)
    }

    ghost predicate Valid()
      reads this, heap
    {
      Pages() && Placed(frames, places, kernel) && Backed(heap.s, places)
    }

    constructor (base: nat, length: nat, ghost kernel: nat)
      requires PAGE_SIZE <= length && length % PAGE_SIZE == 0 && base % PAGE_SIZE == 0
      requires base + length < END_OF_LIST
      ensures Valid() && fresh(heap) && places == map[]
    {
      SumsOfPages(length, length);
      InitPaged(base, length);
      heap := new SimpleHeap(base, length);
      frames, places := map[], map[];
      this.kernel := kernel;
      freed := [];
    }

    // No free block holds a page.
    ghost predicate NoRoom()
      reads heap
    {
      AllocStep(heap.s, PAGE_SIZE).None?
    }

    /** A zeroed page for a table; halts when memory is exhausted. */
    method AllocTable(ghost place: Place) returns (r: Option<nat>)
      requires Valid()
      requires 1 <= place.level <= 4 && (place.level == 4 ==> place.prefix == 0)
      modifies this`frames, this`places, heap
      ensures Valid()
      ensures r.None? ==> frames == old(frames) && places == old(places) && NoRoom()
      ensures r.Some? ==> r.value !in old(places) && r.value % PAGE_SIZE == 0
      ensures r.Some? ==> frames == old(frames)[r.value := ZERO_TABLE] && places == old(places)[r.value := place]
      ensures r.Some? ==> heap.s.live == old(heap.s.live) + {Block(r.value, PAGE_SIZE)}
    {
      r := heap.Alloc(PAGE_SIZE);
      if r.Some? {
        AllocPaged(old(heap.s), PAGE_SIZE);
        PlacedWithFresh(frames, places, kernel, r.value, place);
        frames, places := frames[r.value := ZERO_TABLE], places[r.value := place];
      }
    }

    /** A zeroed page for a top-level table, which becomes the root of its own space. */
    method AllocRoot() returns (r: Option<nat>)
      requires Valid()
      modifies this`frames, this`places, heap
      ensures Valid()
      ensures r.None? ==> frames == old(frames) && places == old(places) && NoRoom()
      ensures r.Some? ==> r.value !in old(places) && r.value % PAGE_SIZE == 0
      ensures r.Some? ==>
        frames == old(frames)[r.value := ZERO_TABLE] && places == old(places)[r.value := Place(4, 0, r.value)]
    {
      r := heap.Alloc(PAGE_SIZE);
      if r.Some? {
        AllocPaged(old(heap.s), PAGE_SIZE);
        PlacedWithFresh(frames, places, kernel, r.value, Place(4, 0, r.value));
        frames, places := frames[r.value := ZERO_TABLE], places[r.value := Place(4, 0, r.value)];
      }
    }

    /** Gives the page of a table back. The page is in use, so it is freed only once. */
    method FreeTable(t: nat)
      requires Pages() && Block(t, PAGE_SIZE) in heap.s.live
      modifies this`frames, this`freed, heap
      ensures Pages() && heap.s.live == old(heap.s.live) - {Block(t, PAGE_SIZE)}
      ensures frames == old(frames) - {t} && freed == old(freed) + [t]
    {
      assert t % PAGE_SIZE == 0 by { assert PageBlock(Block(t, PAGE_SIZE)); }
      FreePaged(heap.s, Block(t, PAGE_SIZE));
      heap.Free(t, PAGE_SIZE);
      frames := frames - {t};
      freed := freed + [t];
    }
  }
}
