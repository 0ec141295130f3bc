/** The free-list heap as a value: what the list means, one step of `alloc` and
    of `free`, and what every run of such steps keeps. */
module HeapSpec {
  import opened Options

  // sizeof(free_node): a size and a next pointer.
  const NODE_SIZE: nat := 16

  datatype Block = Block(addr: nat, size: nat) {
    function End(): nat { addr + size }

    predicate Holds(a: nat) { addr <= a < End() }
  }

  // `free` is the free list in list order; `live` are the allocations handed out
  // and not yet freed.
  datatype HeapState = HeapState(base: nat, end: nat, free: seq<Block>, live: set<Block>)

  // ----- what the heap is for -----

  predicate InFree(free: seq<Block>, a: nat) {
    exists i :: 0 <= i < |free| && free[i].Holds(a)
  }

  predicate InLive(live: set<Block>, a: nat) {
    exists b :: b in live && b.Holds(a)
  }

  predicate Fits(base: nat, end: nat, b: Block) {
    && 0 < b.size
    && b.size % NODE_SIZE == 0
    && base <= b.addr
    && b.End() <= end
    && (b.addr - base) % NODE_SIZE == 0
  }

  // Listed in address order, and no block reaches into a later one.
  predicate Ascending(free: seq<Block>) {
    forall i, j :: 0 <= i < j < |free| ==> free[i].End() <= free[j].addr
  }

  predicate Disjoint(b: Block, c: Block) {
    b.End() <= c.addr || c.End() <= b.addr
  }

  ghost predicate LiveDisjoint(live: set<Block>) {
    forall b, c :: b in live && c in live && b != c ==> Disjoint(b, c)
  }

  ghost predicate ApartFrom(b: Block, live: set<Block>) {
    forall c :: c in live ==> Disjoint(b, c)
  }

  // The blocks on the free list and the live allocations tile [base, end).
  ghost predicate Tiles(s: HeapState) {
    && (forall i :: 0 <= i < |s.free| ==> Fits(s.base, s.end, s.free[i]))
    && (forall b :: b in s.live ==> Fits(s.base, s.end, b))
    && Ascending(s.free)
    && LiveDisjoint(s.live)
    && (forall i :: 0 <= i < |s.free| ==> ApartFrom(s.free[i], s.live))
    && (forall a: nat :: s.base <= a < s.end ==> InFree(s.free, a) || InLive(s.live, a))
  }

  // Merging is partial. What survives every history is this: when the lowest
  // free block starts the heap, its successor does not touch it.
  predicate HeadApart(s: HeapState) {
    |s.free| >= 2 && s.free[0].addr == s.base ==> s.free[0].End() != s.free[1].addr
  }

  ghost predicate Ok(s: HeapState) {
    s.base < s.end && Tiles(s) && HeadApart(s)
  }

  // ----- alloc: the first block that is large enough, split -----

  function FirstFit(free: seq<Block>, size: nat): (k: nat)
    ensures k <= |free|
    ensures k < |free| ==> size <= free[k].size
    ensures forall i :: 0 <= i < k ==> free[i].size < size
  {
    if free == [] || size <= free[0].size then 0 else 1 + FirstFit(free[1..], size)
  }

  // The remainder starts at a whole number of nodes past the block, so a size
  // that is not a multiple of NODE_SIZE is rounded down here but not in the size.
  function Remainder(b: Block, size: nat): seq<Block>
    requires size <= b.size
  {
    if size == b.size then [] else [Block(RestAt(b, size), b.size - size)]
  }

  function RestAt(b: Block, size: nat): nat {
    b.addr + size / NODE_SIZE * NODE_SIZE
  }

  // A whole number of nodes, and not none.
  predicate WholeNodes(size: nat) {
    0 < size && size % NODE_SIZE == 0
  }

  function AllocStep(s: HeapState, size: nat): Option<(HeapState, nat)> {
    var k := FirstFit(s.free, size);
    if k == |s.free| then None
    else
      var b := s.free[k];
      Some((s.(free := s.free[..k] + Remainder(b, size) + s.free[k + 1..],
               live := s.live + {Block(b.addr, size)}),
            b.addr))
  }

  // ----- free: insert by address, then merge forward from one point -----

  function Below(free: seq<Block>, addr: nat): (k: nat)
    ensures k <= |free|
    ensures forall i :: 0 <= i < k ==> free[i].addr < addr
    ensures k < |free| ==> addr <= free[k].addr
  {
    if free == [] || addr <= free[0].addr then 0 else 1 + Below(free[1..], addr)
  }

  function MergeAt(free: seq<Block>, i: nat): (r: seq<Block>)
    requires i < |free|
    decreases |free|
  {
    if i + 1 < |free| && free[i].End() == free[i + 1].addr then
      MergeAt(free[..i] + [Block(free[i].addr, free[i].size + free[i + 1].size)] + free[i + 2..], i)
    else
      free
  }

  function InsertFree(free: seq<Block>, b: Block): seq<Block> {
    var k := Below(free, b.addr);
    MergeAt(free[..k] + [b] + free[k..], if k == 0 then 0 else k - 1)
  }

  function FreeStep(s: HeapState, b: Block): HeapState {
    s.(free := InsertFree(s.free, b), live := s.live - {b})
  }

  function Init(base: nat, length: nat): HeapState {
    HeapState(base, base + length, InsertFree([], Block(base, length)), {})
  }

  // The destructor's check.
  predicate Whole(s: HeapState) {
    s.base < s.end && s.free == [Block(s.base, s.end - s.base)]
  }
}
