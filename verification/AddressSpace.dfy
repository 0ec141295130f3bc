/** An address space: the tables, and the tree of what has been mapped. */
module AddressSpace {
  import opened Options
  import opened Mapping
  import opened Rights
  import opened MemoryTypes
  import opened TreeShape
  import Tree
  import opened PageRuns
  import opened PageTables
  import opened PageWalks
  import opened Translation
  import opened Evolution
  import opened Unmapping
  import opened PhysicalMemory
  import opened TableOps

  // `map_alloc_virt` and `map_alloc_virt_close_to_kernel`.
  const ALLOC_VIRT: nat := 0xFFFF_FFFF_FFFF_FFFF
  const ALLOC_VIRT_CLOSE: nat := 0xFFFF_FFFF_FFFF_FFFE
  const MAX_PHYS: nat := 0x1_0000_0000
  // A page holds this many mapping records of 48 bytes.
  const MAX_RECORDS: nat := 85

  // The tree holds one node for every mapping.
  ghost predicate Recorded(s: Shape, maps: map<Item, nat>) {
    && (forall n :: n in Nodes(s) ==> n.item in maps)
    && (forall m :: m in maps ==> exists n :: n in Nodes(s) && n.item == m)
    && (forall n, n' :: n in Nodes(s) && n' in Nodes(s) && n.item == n'.item ==> n == n')
  }

  class AddressSpace {
    const mem: Memory
    const tree: Tree.Tree
    const pml4: nat
    const isKernel: bool
    var freeVirtBase: nat
    var recordsLeft: nat
    ghost var maps: map<Item, nat>

    // The tree and the list agree.
    ghost predicate Tracked()
      reads this, tree, Nodes(tree.shape)
    {
      tree.Valid() && Tree.Sorted(InOrder(tree.shape)) && Recorded(tree.shape, maps)
    }

    // And all that is in the list, and what will be allocated next, is in the space's own part.
    ghost predicate Records()
      reads this, tree, Nodes(tree.shape)
    {
      Tracked() && MapsOk(maps, Lo(isKernel), Hi(isKernel)) && Lo(isKernel) <= freeVirtBase <= Hi(isKernel)
    }

    // The tables translate by the mappings `maps`.
    ghost predicate Tables(maps: map<Item, nat>)
      reads mem, mem.heap
    {
      mem.Valid() && IsRoot(mem, pml4, isKernel) && TablesOk(mem.frames, mem.places, mem.kernel, pml4, isKernel, maps)
    }

    ghost predicate Valid()
      reads this, mem, mem.heap, tree, Nodes(tree.shape)
    {
      Records() && Tables(maps)
    }

    // The top-level table is in place already.
    constructor (mem: Memory, pml4: nat, isKernel: bool, freeVirtBase: nat)
      requires mem.Valid() && Lo(isKernel) <= freeVirtBase <= Hi(isKernel)
      ensures Records() && maps == map[] && fresh(tree) && Nodes(tree.shape) == {}
      ensures this.mem == mem && this.pml4 == pml4 && this.isKernel == isKernel
    {
      this.mem, this.pml4, this.isKernel, this.freeVirtBase := mem, pml4, isKernel, freeVirtBase;
      recordsLeft, maps := MAX_RECORDS, map[];
      tree := new Tree.Tree();
    }

    /** Unmaps as the source does, whatever the address: the lowest mapping that the overlap
        test reports leaves the list if it has the length given, and the loop runs from the
        address given. None when there is no such mapping. List and tables agree afterwards
        exactly when the address was in the first page of the mapping. */
    method UnmapMemory(virt: nat, length: nat) returns (end: Option<Ending>, m: Item)
      requires Valid() && virt < WORD && length < WORD
      modifies this`maps, mem`frames, tree, Nodes(tree.shape)
      ensures Records() && mem.Valid() && Nodes(tree.shape) <= old(Nodes(tree.shape))
      ensures end.Some? <==> exists n: Item :: n.length == length && IsFound(old(maps), virt, length, n)
      ensures end.None? ==> maps == old(maps) && mem.frames == old(mem.frames)
      ensures end.Some? ==> IsFound(old(maps), virt, length, m) && m.length == length && maps == old(maps) - {m}
      ensures end.Some? ==> var run := UnmapOf(old(mem.frames), pml4, m, virt);
        mem.frames == run.frames && end.value == run.end
      ensures Valid() <==> end.None? || FromStart(m, virt)
    {
      ValidIs();
      assert allocated(Nodes(tree.shape));
      m := Item(0, 0, SMALL);
      hide *;
      var n := FindMapping(virt, length);
      OnlyOneFound(virt, length, n);
      if n == null || n.item.length != length {
        ValidFrom();
        return None, m;
      }
      m := n.item;
      ghost var maps0, f0 := maps, mem.frames;
      ghost var run := UnmapOf(f0, pml4, m, virt);
      TablesAre(maps0);
      LengthWhole(m);
      end := Drop(n, virt, length, run);
      ValidExactly(f0, maps0, m, virt);
    }

    lemma OnlyOneFound(virt: nat, length: nat, n: Node?)
      requires Records()
      requires n == null <==> forall m :: m in maps ==> !AreasOverlap(virt, length, m.addr, m.length)
      requires n != null ==> IsFound(maps, virt, length, n.item)
      ensures (exists m: Item :: m.length == length && IsFound(maps, virt, length, m)) <==>
        n != null && n.item.length == length
    {
      forall m | IsFound(maps, virt, length, m)
        ensures n != null && m == n.item
      {
        assert ItemOk(m, maps[m], Lo(isKernel), Hi(isKernel));
        assert n != null;
        assert ItemOk(n.item, maps[n.item], Lo(isKernel), Hi(isKernel));
        assert m != n.item ==> Apart(m, n.item);
      }
      hide IsFound;
    }

    // The record of a mapping leaves the tree, its pages the tables, as far as the loop gets.
    method Drop(n: Node, virt: nat, length: nat, ghost run: Run) returns (end: Option<Ending>)
      requires Records() && mem.Valid() && IsRoot(mem, pml4, isKernel)
      requires n in Nodes(tree.shape) && n.item in maps && WholePages(n.item.kind, length) && n.item.length == length
      requires run == UnmapOf(mem.frames, pml4, n.item, virt)
      modifies this`maps, mem`frames, tree, Nodes(tree.shape)
      ensures Records() && mem.Valid() && maps == old(maps) - {n.item}
      ensures mem.frames == run.frames && end == Some(run.end)
      ensures Nodes(tree.shape) <= old(Nodes(tree.shape))
    {
      hide *;
      var e := Clear(n, virt, length, run);
      assert allocated(Nodes(tree.shape));
      if e == Complete {
        // The node is detached by now; removing it again does nothing.
        RemoveAgain(n);
      }
      end := Some(e);
    }

    method Clear(n: Node, virt: nat, length: nat, ghost run: Run) returns (end: Ending)
      requires Records() && mem.Valid() && IsRoot(mem, pml4, isKernel)
      requires n in Nodes(tree.shape) && n.item in maps && WholePages(n.item.kind, length) && n.item.length == length
      requires run == UnmapOf(mem.frames, pml4, n.item, virt)
      modifies this`maps, mem`frames, tree, Nodes(tree.shape)
      ensures Records() && mem.Valid() && maps == old(maps) - {n.item}
      ensures mem.frames == run.frames && end == run.end
      ensures n.Detached() && Nodes(tree.shape) == old(Nodes(tree.shape)) - {n}
    {
      ghost var f0 := mem.frames;
      hide *;
      Forget(n);
      assert allocated(Nodes(tree.shape));
      RootIs();
      UnmapOfIs(f0, pml4, n.item, virt);
      end := UnmapPages(mem, pml4, n.item.kind, virt, length);
    }

    lemma RootIs()
      requires IsRoot(mem, pml4, isKernel)
      ensures pml4 in mem.places && mem.places[pml4].level == 4
    {
    }

    lemma TablesAre(maps: map<Item, nat>)
      requires Tables(maps)
      ensures mem.Valid() && Placed(mem.frames, mem.places, mem.kernel) && IsRoot(mem, pml4, isKernel)
      ensures pml4 in mem.places && mem.places[pml4] == Place(4, 0, pml4) && isKernel == (pml4 == mem.kernel)
      ensures TablesOk(mem.frames, mem.places, mem.kernel, pml4, isKernel, maps)
    {
    }

    lemma LengthWhole(m: Item)
      requires Records() && m in maps
      ensures WholePages(m.kind, m.length) && MapsOk(maps, Lo(isKernel), Hi(isKernel))
    {
      assert ItemOk(m, maps[m], Lo(isKernel), Hi(isKernel));
    }

    lemma ValidExactly(f0: Frames, maps0: map<Item, nat>, m: Item, virt: nat)
      requires Records() && mem.Valid() && IsRoot(mem, pml4, isKernel)
      requires Placed(f0, mem.places, mem.kernel)
      requires TablesOk(f0, mem.places, mem.kernel, pml4, isKernel, maps0)
      requires MapsOk(maps0, Lo(isKernel), Hi(isKernel)) && m in maps0 && maps == maps0 - {m}
      requires mem.frames == UnmapOf(f0, pml4, m, virt).frames
      ensures Valid() <==> FromStart(m, virt)
    {
      ghost var f1 := mem.frames;
      assert pml4 in mem.places && mem.places[pml4] == Place(4, 0, pml4);
      assert Valid() <==> TablesOk(f1, mem.places, mem.kernel, pml4, isKernel, maps);
      assert isKernel == (pml4 == mem.kernel);
      hide *;
      UnmapTables(f0, mem.places, mem.kernel, pml4, isKernel, maps0, m, virt);
    }

    method Forget(n: Node)
      requires Records() && n in Nodes(tree.shape) && n.item in maps
      modifies this`maps, tree, Nodes(tree.shape)
      ensures Records() && maps == old(maps) - {n.item}
      ensures n.Detached() && Nodes(tree.shape) == old(Nodes(tree.shape)) - {n}
    {
      ghost var was := tree.shape;
      assert tree.Valid() && Tree.Sorted(InOrder(tree.shape)) && Recorded(tree.shape, maps);
      assert MapsOk(maps, Lo(isKernel), Hi(isKernel)) && Lo(isKernel) <= freeVirtBase <= Hi(isKernel);
      hide *;
      ghost var passes := tree.Remove(n);
      maps := maps - {n.item};
      RecordsLess(was, old(maps), n);
    }

    /** The second removal of a node changes neither the tree nor any link. */
    method RemoveAgain(n: Node)
      requires Records() && n.Detached() && n !in Nodes(tree.shape)
      modifies tree, n, Nodes(tree.shape)
      ensures Records() && n.Detached()
      ensures tree.shape == old(tree.shape) && tree.root == old(tree.root)
      ensures Tree.LinkMap(Nodes(tree.shape)) == old(Tree.LinkMap(Nodes(tree.shape)))
    {
      ghost var passes := tree.Remove(n);
    }

    lemma RecordsLess(was: Shape, maps0: map<Item, nat>, n: Node)
      requires tree.Valid() && Lo(isKernel) <= freeVirtBase <= Hi(isKernel)
      requires Tree.Sorted(InOrder(was)) && Tree.TakenOut(InOrder(was), n, InOrder(tree.shape))
      requires Recorded(was, maps0) && MapsOk(maps0, Lo(isKernel), Hi(isKernel))
      requires n in Nodes(was) && Nodes(tree.shape) == Nodes(was) - {n} && maps == maps0 - {n.item}
      ensures Records()
    {
      MapsLess(maps0, isKernel, n.item);
      hide InOrder, Nodes, MapsOk, Recorded, Tree.Sorted, Tree.TakenOut;
      SortedLess(InOrder(was), n, InOrder(tree.shape));
      RecordedLess(was, tree.shape, maps0, n);
    }

    // Where a mapping asked for at `virt` will go.
    function Chosen(virt: nat): nat
      reads this
    {
      if virt == ALLOC_VIRT || virt == ALLOC_VIRT_CLOSE then freeVirtBase else virt
    }

    // Whether a range can be allocated, if one is asked for, and what is free after it.
    predicate Allocatable(virt: nat, length: nat)
      reads this
    {
      virt == ALLOC_VIRT || virt == ALLOC_VIRT_CLOSE ==> length % PAGE_SIZE == 0 && freeVirtBase + length < WORD
    }

    function Advanced(virt: nat, length: nat): nat
      reads this
    {
      if virt == ALLOC_VIRT || virt == ALLOC_VIRT_CLOSE then freeVirtBase + length else freeVirtBase
    }

    // The top-level slots that a request may name.
    predicate SlotOk(virt: nat) {
      if isKernel then Index(4, virt) == KERNEL_PML4
      else virt == ALLOC_VIRT || (Index(4, virt) != KERNEL_PML4 && Index(4, virt) < 0x100)
    }

    // What a request must be like, the tables aside.
    ghost predicate Acceptable(virt: nat, length: nat, kind: MemoryType, phys: nat)
      reads this
    {
      var at := Chosen(virt);
      && 0 < length && WholePages(kind, length) && WholePages(kind, phys) && phys < MAX_PHYS
      && Allocatable(virt, length) && WholePages(kind, at) && at + length < WORD
      && (forall m :: m in maps ==> !AreasOverlap(at, length, m.addr, m.length))
      && kind.read && recordsLeft > 0
    }

    // Since the tables were `f0` with places `p0` and the list `maps0`, the mapping has come into
    // the list and its pages into the tables of all who see them, and no table of others has been
    // changed unless a page of a user's is in the top slot. The own tables agree with the list if
    // it is in the own part, or writes only what the list says; all is in order in the first case.
    ghost predicate IsMapped(f0: Frames, p0: map<nat, Place>, maps0: map<Item, nat>, item: Item, phys: nat)
      reads this, mem, mem.heap, tree, Nodes(tree.shape)
    {
      && Tracked() && mem.Valid() && item !in maps0 && maps == maps0[item := phys]
      && item.addr % PageBytes(item.kind) == 0 && item.length % PageBytes(item.kind) == 0
      && RootsKept(f0, p0, mem.frames, mem.places, mem.kernel)
      && Added(f0, p0, mem.frames, mem.kernel, pml4, item, phys, PageCount(item))
      && (isKernel || !Strays(item, PageCount(item)) ==>
           Evolves(f0, p0, mem.frames, mem.places, pml4, isKernel))
      && (Translates(mem.frames, pml4, isKernel, maps) <==>
           InPart(isKernel, item.addr, item.length) || Redundant(isKernel, maps0, item, phys))
      && (Valid() <==> InPart(isKernel, item.addr, item.length))
    }

    lemma MappedIs(f0: Frames, p0: map<nat, Place>, maps0: map<Item, nat>, item: Item, phys: nat)
      requires IsMapped(f0, p0, maps0, item, phys)
      ensures Tracked() && mem.Valid() && (Valid() <==> InPart(isKernel, item.addr, item.length))
      ensures Translates(mem.frames, pml4, isKernel, maps) <==>
        InPart(isKernel, item.addr, item.length) || Redundant(isKernel, maps0, item, phys)
    {
      hide Valid, Tracked, Added, RootsKept, Strays, Evolves, InPart, Redundant, Translates, PageBytes;
    }

    // Of its own tables an address space is the root.
    lemma ValidRooted()
      requires Valid()
      ensures Rooted(mem.frames, mem.places, mem.kernel, pml4)
    {
      assert Tables(maps);
      hide *;
      TablesAre(maps);
      IsRooted(mem.frames, mem.places, mem.kernel, pml4, isKernel, maps);
    }

    lemma MappedGranted(f0: Frames, p0: map<nat, Place>, maps0: map<Item, nat>, item: Item, phys: nat)
      requires IsMapped(f0, p0, maps0, item, phys) && Rooted(f0, p0, mem.kernel, pml4)
      ensures Granted(mem.frames, pml4, item)
      ensures InPart(isKernel, item.addr, item.length) ==> Leads(mem.frames, pml4, item, phys)
    {
      assert item in maps && maps[item] == phys;
      assert InPart(isKernel, item.addr, item.length) ==> Translates(mem.frames, pml4, isKernel, maps);
      assert item.addr % PageBytes(item.kind) == 0 && item.length % PageBytes(item.kind) == 0;
      assert Added(f0, p0, mem.frames, mem.kernel, pml4, item, phys, PageCount(item));
      hide *;
      MappedGrants(f0, p0, mem.frames, mem.kernel, pml4, item, phys);
      if InPart(isKernel, item.addr, item.length) {
        TranslatesLeads(mem.frames, pml4, isKernel, maps, item);
      }
    }

    /** Maps `length` bytes of physical memory and returns where. Halts only when the request is
        not acceptable, or memory for tables runs out, or a table of other permissions is in the
        way. List and tables agree afterwards exactly when the range does not leave the canonical
        halves of the address space, or all it writes is what the list says anyway; and all is in
        order, what is mapped lying in the own part, exactly in the first case, in which every
        address of the range leads to its physical place. The rights are those that `kind` gives
        along the whole walk of every address of the range in either case. */
    method MapMemory(virt: nat, length: nat, kind: MemoryType, phys: nat) returns (r: Option<nat>)
      requires Valid() && virt < WORD && length < WORD && phys < WORD
      modifies this, mem`frames, mem`places, mem.heap, tree, Nodes(tree.shape)
      ensures r.Some? ==> r.value == old(Chosen(virt))
      ensures r.Some? ==>
        IsMapped(old(mem.frames), old(mem.places), old(maps), Item(r.value, length, kind), phys)
      ensures r.Some? ==> (Valid() <==> Contiguous(r.value, length))
      ensures r.Some? ==>
        (Translates(mem.frames, pml4, isKernel, maps) <==>
          Contiguous(r.value, length) || Redundant(isKernel, old(maps), Item(r.value, length, kind), phys))
      ensures r.Some? ==> (Contiguous(r.value, length) <==> InPart(isKernel, r.value, length))
      ensures r.Some? ==> Granted(mem.frames, pml4, Item(r.value, length, kind))
      ensures r.Some? && Contiguous(r.value, length) ==> Leads(mem.frames, pml4, Item(r.value, length, kind), phys)
      ensures r.Some? ==> Tracked() && mem.Valid() && fresh(Nodes(tree.shape) - old(Nodes(tree.shape)))
      ensures r.Some? ==> SlotOk(virt) && old(Acceptable(virt, length, kind, phys))
      ensures r.Some? ==> freeVirtBase == old(Advanced(virt, length)) && recordsLeft == old(recordsLeft) - 1
      ensures r.None? ==>
        || !SlotOk(virt) || !old(Acceptable(virt, length, kind, phys))
        || mem.NoRoom() || Obstructed(mem.frames, pml4, Item(old(Chosen(virt)), length, kind))
    {
      if isKernel {
        if Index(4, virt) != KERNEL_PML4 {
          return None;
        }
      } else if virt != ALLOC_VIRT {
        if Index(4, virt) == KERNEL_PML4 || Index(4, virt) >= 0x100 {
          return None;
        }
      }
      InSlot(isKernel, virt, Chosen(virt), freeVirtBase, length);
      ValidRooted();
      hide *;
      r := DoMapMemory(virt, length, kind, phys);
      if r.Some? {
        MappedIs(old(mem.frames), old(mem.places), old(maps), Item(r.value, length, kind), phys);
        MappedGranted(old(mem.frames), old(mem.places), old(maps), Item(r.value, length, kind), phys);
      }
    }

    method DoMapMemory(virt: nat, length: nat, kind: MemoryType, phys: nat) returns (r: Option<nat>)
      requires Valid() && length < WORD && virt < WORD
      modifies this, mem`frames, mem`places, mem.heap, tree, Nodes(tree.shape)
      ensures r.Some? ==> r.value == old(Chosen(virt))
      ensures r.Some? ==>
        IsMapped(old(mem.frames), old(mem.places), old(maps), Item(r.value, length, kind), phys)
      ensures r.Some? ==> fresh(Nodes(tree.shape) - old(Nodes(tree.shape)))
      ensures r.Some? ==> old(Acceptable(virt, length, kind, phys)) && r.value + length < WORD
      ensures r.Some? ==> freeVirtBase == old(Advanced(virt, length)) && recordsLeft == old(recordsLeft) - 1
      ensures r.None? ==>
        || !old(Acceptable(virt, length, kind, phys))
        || mem.NoRoom() || Obstructed(mem.frames, pml4, Item(old(Chosen(virt)), length, kind))
    {
      ValidIs();
      ghost var all := Nodes(tree.shape);
      assert allocated(all);
      hide *;
      var at := Admit(virt, length, kind, phys);
      if at == WORD {
        return None;
      }
      assert Nodes(tree.shape) == all;
      var ok;
      ghost var n;
      ok, n := Commit(Item(at, length, kind), phys);
      if !ok {
        return None;
      }
      r := Some(at);
    }

    // The checks on a request, and where it goes; WORD when it is refused.
    method Admit(virt: nat, length: nat, kind: MemoryType, phys: nat) returns (at: nat)
      requires Records() && length < WORD && virt < WORD
      modifies this`freeVirtBase
      ensures Tracked() && MapsOk(maps, Lo(isKernel), Hi(isKernel)) && at <= WORD
      ensures at != WORD <==> old(Acceptable(virt, length, kind, phys))
      ensures at != WORD ==> at == old(Chosen(virt))
      ensures at != WORD ==> freeVirtBase == old(Advanced(virt, length)) && recordsLeft > 0 && at + length < WORD
      ensures at != WORD ==> Admitted(Item(at, length, kind), phys)
    {
      ChosenFits(virt);
      hide Records, WholePages, Chosen, Advanced, Allocatable, AreasOverlap, Admitted;
      if length == 0 || !WholePages(kind, length) || !WholePages(kind, phys) || phys >= MAX_PHYS {
        return WORD;
      }
      at := VirtualAlloc(virt, length);
      if at == WORD || !WholePages(kind, at) || at + length >= WORD {
        return WORD;
      }
      var overlap := FindMapping(at, length);
      if overlap != null || !kind.read || recordsLeft == 0 {
        return WORD;
      }
      NewItem(Item(at, length, kind), phys);
    }

    // What has passed the checks.
    ghost predicate Admitted(item: Item, phys: nat)
      reads this
    {
      && item !in maps
      && WholePages(item.kind, item.addr) && WholePages(item.kind, item.length) && WholePages(item.kind, phys)
      && (InPart(isKernel, item.addr, item.length) ==>
           Fresh(maps, isKernel, item, phys) && Lo(isKernel) <= freeVirtBase <= Hi(isKernel))
    }

    lemma ChosenFits(virt: nat)
      requires Records() && virt < WORD
      ensures Chosen(virt) < WORD && Tracked() && MapsOk(maps, Lo(isKernel), Hi(isKernel))
    {
    }

    lemma ValidIs()
      requires Valid()
      ensures Records() && Tables(maps) && mem.Valid()
    {
    }

    lemma ValidFrom()
      requires Records() && Tables(maps)
      ensures Valid()
    {
    }

    lemma NewItem(item: Item, phys: nat)
      requires MapsOk(maps, Lo(isKernel), Hi(isKernel)) && item.addr + item.length < WORD && item.length != 0
      requires WholePages(item.kind, item.addr) && WholePages(item.kind, item.length) && WholePages(item.kind, phys)
      requires forall m :: m in maps ==> !AreasOverlap(item.addr, item.length, m.addr, m.length)
      requires InPart(isKernel, item.addr, item.length) ==> Lo(isKernel) <= freeVirtBase <= Hi(isKernel)
      ensures Admitted(item, phys)
    {
      assert item in maps ==> ItemOk(item, maps[item], Lo(isKernel), Hi(isKernel));
      if InPart(isKernel, item.addr, item.length) {
        forall m | m in maps
          ensures Translation.Apart(m, item) && m != item
        {
          assert ItemOk(m, maps[m], Lo(isKernel), Hi(isKernel));
          OverlapInSpace(maps, isKernel, item.addr, item.length, m);
          IntersectByReach(item.addr, item.length, m.addr, m.length);
        }
      }
      hide AreasOverlap, MapsOk, Intersect;
    }

    // The given address, or the next free one; WORD when the allocation is refused.
    method VirtualAlloc(virt: nat, length: nat) returns (at: nat)
      requires Records() && length < WORD && virt < WORD
      modifies this`freeVirtBase
      ensures Tracked() && maps == old(maps)
      ensures at == if old(Allocatable(virt, length)) then old(Chosen(virt)) else WORD
      ensures at != WORD ==> freeVirtBase == old(Advanced(virt, length))
      ensures at != WORD && InPart(isKernel, at, length) ==> Lo(isKernel) <= freeVirtBase <= Hi(isKernel)
    {
      ChosenFits(virt);
      at := virt;
      if virt == ALLOC_VIRT || virt == ALLOC_VIRT_CLOSE {
        if length % PAGE_SIZE != 0 || freeVirtBase + length >= WORD {
          return WORD;
        }
        at, freeVirtBase := freeVirtBase, freeVirtBase + length;
      }
    }

    // Records the mapping and writes its pages.
    method Commit(item: Item, phys: nat) returns (ok: bool, ghost n: Node)
      requires Tracked() && MapsOk(maps, Lo(isKernel), Hi(isKernel)) && Tables(maps) && recordsLeft > 0
      requires Admitted(item, phys)
      modifies this`recordsLeft, this`maps, mem`frames, mem`places, mem.heap, tree, Nodes(tree.shape)
      ensures ok ==> IsMapped(old(mem.frames), old(mem.places), old(maps), item, phys)
      ensures fresh(n) && Nodes(tree.shape) == old(Nodes(tree.shape)) + {n}
      ensures recordsLeft == old(recordsLeft) - 1 && freeVirtBase == old(freeVirtBase)
      ensures !ok ==> mem.NoRoom() || Obstructed(mem.frames, pml4, item)
    {
      ghost var maps0 := maps;
      hide *;
      AdmittedIs(item, phys);
      n := Record(item, phys);
      ok := Write(item, phys, maps0);
    }

    // Writes the pages of a mapping that has been recorded.
    method Write(item: Item, phys: nat, ghost maps0: map<Item, nat>) returns (ok: bool)
      requires Tracked() && Tables(maps0) && MapsOk(maps0, Lo(isKernel), Hi(isKernel))
      requires item !in maps0 && maps == maps0[item := phys]
      requires WholePages(item.kind, item.addr) && WholePages(item.kind, item.length) && WholePages(item.kind, phys)
      requires InPart(isKernel, item.addr, item.length) ==>
        Fresh(maps0, isKernel, item, phys) && Lo(isKernel) <= freeVirtBase <= Hi(isKernel)
      modifies mem`frames, mem`places, mem.heap
      ensures ok ==> IsMapped(old(mem.frames), old(mem.places), maps0, item, phys)
      ensures !ok ==> mem.NoRoom() || Obstructed(mem.frames, pml4, item)
    {
      ghost var f0, p0 := mem.frames, mem.places;
      hide *;
      TablesAre(maps0);
      IsRooted(f0, p0, mem.kernel, pml4, isKernel, maps0);
      assert allocated(Nodes(tree.shape));
      ok := MapPages(mem, pml4, item, phys);
      if ok {
        MappedToIs(mem, f0, p0, pml4, item, phys, PageCount(item), PageCount(item));
        MappedExactly(f0, p0, maps0, item, phys);
        MappedFacts(f0, p0, maps0, item, phys);
      }
    }

    lemma AdmittedIs(item: Item, phys: nat)
      requires Admitted(item, phys)
      ensures item !in maps
      ensures WholePages(item.kind, item.addr) && WholePages(item.kind, item.length) && WholePages(item.kind, phys)
      ensures InPart(isKernel, item.addr, item.length) ==>
        Fresh(maps, isKernel, item, phys) && Lo(isKernel) <= freeVirtBase <= Hi(isKernel)
    {
    }

    lemma MappedFacts(f0: Frames, p0: map<nat, Place>, maps0: map<Item, nat>, item: Item, phys: nat)
      requires MappedBy(mem.frames, mem.places, mem.kernel, f0, p0, pml4, item, phys, PageCount(item), PageCount(item))
      requires isKernel == (pml4 == mem.kernel) && Tracked() && mem.Valid()
      requires item !in maps0 && maps == maps0[item := phys] && WholePages(item.kind, item.length)
      requires Translates(mem.frames, pml4, isKernel, maps) <==>
        InPart(isKernel, item.addr, item.length) || Redundant(isKernel, maps0, item, phys)
      requires Valid() <==> InPart(isKernel, item.addr, item.length)
      ensures IsMapped(f0, p0, maps0, item, phys)
    {
      hide Rooted, RootsKept, Added, Strays, Evolves, Tracked, Valid, InPart, Redundant, Translates, PageBytes;
    }

    // With the mapping in the list and in the tables, all is sound if it is in the own part.
    lemma MappedExactly(f0: Frames, p0: map<nat, Place>, maps0: map<Item, nat>, item: Item, phys: nat)
      requires Tracked() && mem.Valid() && isKernel == (pml4 == mem.kernel)
      requires pml4 in p0 && p0[pml4] == Place(4, 0, pml4)
      requires TablesOk(f0, p0, mem.kernel, pml4, isKernel, maps0) && MapsOk(maps0, Lo(isKernel), Hi(isKernel))
      requires item !in maps0 && maps == maps0[item := phys] && WholePages(item.kind, item.length)
      requires InPart(isKernel, item.addr, item.length) ==>
        Fresh(maps0, isKernel, item, phys) && Lo(isKernel) <= freeVirtBase <= Hi(isKernel)
      requires MappedBy(mem.frames, mem.places, mem.kernel, f0, p0, pml4, item, phys,
        PageCount(item), PageCount(item))
      ensures Translates(mem.frames, pml4, isKernel, maps) <==>
        InPart(isKernel, item.addr, item.length) || Redundant(isKernel, maps0, item, phys)
      ensures Valid() <==> InPart(isKernel, item.addr, item.length)
    {
      ghost var f1, p1, kernel := mem.frames, mem.places, mem.kernel;
      PartByList(item);
      hide *;
      MappedAgrees(f0, p0, f1, p1, pml4, kernel, isKernel, maps0, item, phys);
      if InPart(isKernel, item.addr, item.length) {
        MappedTables(f0, p0, f1, p1, pml4, kernel, isKernel, maps0, item, phys);
        MapsMore(maps0, isKernel, item, phys);
        RootFrom();
        RecordsFrom();
        TablesFrom();
        ValidFrom();
      }
    }

    lemma PartByList(item: Item)
      requires item in maps
      ensures Valid() ==> InPart(isKernel, item.addr, item.length)
    {
      if Valid() {
        assert ItemOk(item, maps[item], Lo(isKernel), Hi(isKernel));
      }
    }

    lemma RootFrom()
      requires Rooted(mem.frames, mem.places, mem.kernel, pml4) && isKernel == (pml4 == mem.kernel)
      ensures IsRoot(mem, pml4, isKernel)
    {
    }

    lemma RecordsFrom()
      requires Tracked() && MapsOk(maps, Lo(isKernel), Hi(isKernel)) && Lo(isKernel) <= freeVirtBase <= Hi(isKernel)
      ensures Records()
    {
    }

    lemma TablesFrom()
      requires mem.Valid() && IsRoot(mem, pml4, isKernel)
      requires TablesOk(mem.frames, mem.places, mem.kernel, pml4, isKernel, maps)
      ensures Tables(maps)
    {
    }

    // The record of a new mapping goes into the tree.
    method Record(item: Item, phys: nat) returns (ghost n: Node)
      requires Tracked() && recordsLeft > 0 && item !in maps
      modifies this`recordsLeft, this`maps, tree, Nodes(tree.shape)
      ensures Tracked() && maps == old(maps)[item := phys] && recordsLeft == old(recordsLeft) - 1
      ensures fresh(n) && Nodes(tree.shape) == old(Nodes(tree.shape)) + {n}
    {
      ghost var all := Nodes(tree.shape);
      assert allocated(all);
      assert tree.Valid() && Tree.Sorted(InOrder(tree.shape)) && Recorded(tree.shape, maps);
      hide *;
      var node := new Node(item);
      recordsLeft := recordsLeft - 1;
      Keep(node, phys);
      n := node;
    }

    method Keep(node: Node, phys: nat)
      requires Tracked() && node.item !in maps && node.Detached() && node !in Nodes(tree.shape)
      modifies this`maps, tree, Nodes(tree.shape), node
      ensures Tracked() && maps == old(maps)[node.item := phys]
      ensures Nodes(tree.shape) == old(Nodes(tree.shape)) + {node}
    {
      hide *;
      ghost var was, maps0 := tree.shape, maps;
      TrackedIs();
      tree.Insert(node);
      RecordedMore(was, tree.shape, maps0, node, phys);
      maps := maps0[node.item := phys];
      TrackedFrom();
    }

    lemma TrackedIs()
      requires Tracked()
      ensures tree.Valid() && Tree.Sorted(InOrder(tree.shape)) && Recorded(tree.shape, maps)
    {
    }

    lemma TrackedFrom()
      requires tree.Valid() && Tree.Sorted(InOrder(tree.shape)) && Recorded(tree.shape, maps)
      ensures Tracked()
    {
    }

    /** Of the mappings that the overlap test reports for a range, the lowest, or null when
        it reports none. */
    method FindMapping(virt: nat, length: nat) returns (n: Node?)
      requires Tracked()
      ensures Tracked()
      ensures n == null <==> forall m :: m in maps ==> !AreasOverlap(virt, length, m.addr, m.length)
      ensures n != null ==> n in Nodes(tree.shape) && n.item in maps && IsFound(maps, virt, length, n.item)
    {
      ghost var k;
      assert allocated(Nodes(tree.shape));
      n, k := tree.FindIf((i: Item) => AreasOverlap(virt, length, i.addr, i.length));
      FoundFirst(tree.shape, maps, virt, length, k);
    }

    /** For a range in the space's own part, what is found is what really intersects. */
    lemma FoundIntersects(virt: nat, length: nat, n: Node?)
      requires Records() && Lo(isKernel) <= virt <= Hi(isKernel) && virt + length < WORD
      requires n == null <==> forall m :: m in maps ==> !AreasOverlap(virt, length, m.addr, m.length)
      requires n != null ==> IsFound(maps, virt, length, n.item)
      ensures n == null <==> forall m :: m in maps ==> !Intersect(virt, length, m.addr, m.length)
      ensures n != null ==> Intersect(virt, length, n.item.addr, n.item.length)
      ensures n != null ==> forall m :: m in maps && Intersect(virt, length, m.addr, m.length) ==> n.item.addr <= m.addr
    {
      forall m | m in maps
        ensures AreasOverlap(virt, length, m.addr, m.length) <==> Intersect(virt, length, m.addr, m.length)
      {
        OverlapInSpace(maps, isKernel, virt, length, m);
      }
      hide AreasOverlap, Intersect;
    }
  }

  /** The first address space: the kernel's own. */
  method CreateKernel(mem: Memory) returns (space: AddressSpace?)
    requires mem.Valid() && mem.places == map[]
    modifies mem, mem.heap
    ensures space != null ==> fresh(space) && fresh(space.tree) && Nodes(space.tree.shape) == {}
    ensures space != null ==> space.Valid() && space.isKernel && space.mem == mem && space.maps == map[]
    ensures space == null ==> mem.NoRoom()
  {
    var r := mem.AllocRoot();
    if r.None? {
      return null;
    }
    mem.kernel := r.value;
    FirstPlaced(mem.frames, mem.places, r.value);
    BornEmpty(mem.frames, mem.places, r.value, r.value, true);
    space := new AddressSpace(mem, r.value, true, 0xFFFF_FFFF_BF00_0000);
  }

  /** A user's address space is born with the kernel's top entry and nothing else. */
  method CreateUser(mem: Memory, kernelPml4: nat) returns (space: AddressSpace?)
    requires mem.Valid() && IsRoot(mem, kernelPml4, true)
    modifies mem`frames, mem`places, mem.heap
    ensures space != null ==> fresh(space) && fresh(space.tree) && Nodes(space.tree.shape) == {}
    ensures space != null ==> space.Records() && !space.isKernel && space.mem == mem && space.maps == map[]
    ensures space != null ==> space.pml4 !in old(mem.places) && mem.Valid() && IsRoot(mem, space.pml4, false)
    ensures space != null ==>
      mem.frames == old(mem.frames)[space.pml4 := BornWith(old(mem.frames)[kernelPml4][KERNEL_PML4])]
    ensures space != null ==> mem.places == old(mem.places)[space.pml4 := Place(4, 0, space.pml4)]
    ensures space != null ==> space.Valid()
    ensures space == null ==> mem.NoRoom()
  {
    KernelTable(mem.frames, mem.places, kernelPml4);
    ghost var f0, p0 := mem.frames, mem.places;
    var r := mem.AllocRoot();
    if r.None? {
      return null;
    }
    hide *;
    Birth(f0, p0, kernelPml4, r.value);
    mem.frames := SetEntry(mem.frames, r.value, KERNEL_PML4, mem.frames[kernelPml4][KERNEL_PML4]);
    space := new AddressSpace(mem, r.value, false, 0x10_0000);
  }

  // The checks on the top-level slot keep a mapping in its part of the address space, if it is
  // canonical.
  lemma InSlot(isKernel: bool, virt: nat, at: nat, base: nat, length: nat)
    requires Lo(isKernel) <= base <= Hi(isKernel) && virt < WORD
    requires at == if virt == ALLOC_VIRT || virt == ALLOC_VIRT_CLOSE then base else virt
    requires isKernel ==> Index(4, virt) == KERNEL_PML4
    requires !isKernel && virt != ALLOC_VIRT ==> Index(4, virt) < 0x100
    ensures at + length < WORD ==> (Contiguous(at, length) <==> InPart(isKernel, at, length))
  {
  }

  // Whether the own tables agree with the list.
  lemma MappedAgrees(f0: Frames, p0: map<nat, Place>, f1: Frames, p1: map<nat, Place>, pml4: nat, kernel: nat,
      isKernel: bool, maps0: map<Item, nat>, item: Item, phys: nat)
    requires TablesOk(f0, p0, kernel, pml4, isKernel, maps0) && item !in maps0 && WholePages(item.kind, item.length)
    requires InPart(isKernel, item.addr, item.length) ==> Fresh(maps0, isKernel, item, phys)
    requires MappedBy(f1, p1, kernel, f0, p0, pml4, item, phys, PageCount(item), PageCount(item))
    ensures Translates(f1, pml4, isKernel, maps0[item := phys]) <==>
      InPart(isKernel, item.addr, item.length) || Redundant(isKernel, maps0, item, phys)
  {
    assert WholePages(item.kind, item.addr);
    assert item.addr % PageBytes(item.kind) == 0 && item.length % PageBytes(item.kind) == 0;
    hide Rooted, RootsKept, Added, Strays, Evolves, Translates, InPart, Redundant, Fresh, PageBytes, WholePages;
    MapExactly(f0, p0, f1, kernel, pml4, isKernel, maps0, item, phys);
  }

  // The tables after mapping in the own part.
  lemma MappedTables(f0: Frames, p0: map<nat, Place>, f1: Frames, p1: map<nat, Place>, pml4: nat, kernel: nat,
      isKernel: bool, maps0: map<Item, nat>, item: Item, phys: nat)
    requires TablesOk(f0, p0, kernel, pml4, isKernel, maps0) && Fresh(maps0, isKernel, item, phys)
    requires isKernel == (pml4 == kernel) && pml4 in p0 && p0[pml4] == Place(4, 0, pml4)
    requires MappedBy(f1, p1, kernel, f0, p0, pml4, item, phys,
      PageCount(item), PageCount(item))
    ensures TablesOk(f1, p1, kernel, pml4, isKernel, maps0[item := phys]) && Rooted(f1, p1, kernel, pml4)
    ensures Evolves(f0, p0, f1, p1, pml4, isKernel)
  {
    var n := PageCount(item);
    assert ItemOk(item, phys, Lo(isKernel), Hi(isKernel));
    if !isKernel {
      OwnStays(item, phys, n);
    }
    MappedByRoot(f1, p1, kernel, f0, p0, pml4, item, phys, n, n);
    hide TablesOk, Fresh, Rooted, RootsKept, Evolves, Added, Strays, ItemOk;
    ExtendedFrom(f0, p0, f1, kernel, pml4, isKernel, item, phys);
    MappedAll(f0, p0, f1, p1, pml4, kernel, isKernel, maps0, item, phys);
  }

  lemma {:induction false} RecordedMore(s: Shape, s': Shape, maps: map<Item, nat>, node: Node, phys: nat)
    requires Recorded(s, maps) && Nodes(s') == Nodes(s) + {node} && node.item !in maps
    ensures Recorded(s', maps[node.item := phys])
  {
    hide Nodes;
    RecordedByAll(Nodes(s), Nodes(s'), maps, maps[node.item := phys], node);
  }

  // One node and its record more.
  lemma RecordedByAll(all: set<Node>, all': set<Node>, maps: map<Item, nat>, maps': map<Item, nat>, node: Node)
    requires all' == all + {node} && maps'.Keys == maps.Keys + {node.item} && node.item !in maps
    requires forall n :: n in all ==> n.item in maps
    requires forall m :: m in maps ==> exists n :: n in all && n.item == m
    requires forall n, n' :: n in all && n' in all && n.item == n'.item ==> n == n'
    ensures forall n :: n in all' ==> n.item in maps'
    ensures forall m :: m in maps' ==> exists n :: n in all' && n.item == m
    ensures forall n, n' :: n in all' && n' in all' && n.item == n'.item ==> n == n'
  {
    assert node in all';
    forall m | m in maps'
      ensures exists n :: n in all' && n.item == m
    {
      if m != node.item {
        var n :| n in all && n.item == m;
        assert n in all';
      }
    }
  }

  lemma SortedLess(s: seq<Node>, x: Node, t: seq<Node>)
    requires Tree.Sorted(s) && Tree.TakenOut(s, x, t)
    ensures Tree.Sorted(t)
  {
    var k :| 0 <= k < |s| && s[k] == x && t == s[..k] + s[k + 1..];
    forall i, j | 0 <= i < j < |t|
      ensures t[i].item.addr <= t[j].item.addr
    {
      var i', j' := if i < k then i else i + 1, if j < k then j else j + 1;
      assert t[i] == s[i'] && t[j] == s[j'];
    }
  }

  lemma {:induction false} RecordedLess(s: Shape, s': Shape, maps: map<Item, nat>, node: Node)
    requires Recorded(s, maps) && node in Nodes(s) && Nodes(s') == Nodes(s) - {node}
    ensures Recorded(s', maps - {node.item})
  {
    hide Nodes;
    forall m | m in maps - {node.item}
      ensures exists n :: n in Nodes(s') && n.item == m
    {
      var n :| n in Nodes(s) && n.item == m;
      assert n in Nodes(s');
    }
  }

  lemma FirstPlaced(frames: Frames, places: map<nat, Place>, r: nat)
    requires places == map[r := Place(4, 0, r)] && r in frames && frames[r] == ZERO_TABLE
    ensures Placed(frames, places, r)
  {
  }

  lemma OverlapInSpace(maps: map<Item, nat>, isKernel: bool, virt: nat, length: nat, m: Item)
    requires MapsOk(maps, Lo(isKernel), Hi(isKernel)) && m in maps
    requires Lo(isKernel) <= virt <= Hi(isKernel) && virt + length < WORD
    ensures AreasOverlap(virt, length, m.addr, m.length) <==> Intersect(virt, length, m.addr, m.length)
  {
    assert ItemOk(m, maps[m], Lo(isKernel), Hi(isKernel));
    OverlapExactly(virt, length, m.addr, m.length);
  }

  lemma FoundFirst(s: Shape, maps: map<Item, nat>, virt: nat, length: nat, k: nat)
    requires Tree.Sorted(InOrder(s)) && Recorded(s, maps) && k <= |InOrder(s)|
    requires forall j :: 0 <= j < k ==> !AreasOverlap(virt, length, InOrder(s)[j].item.addr, InOrder(s)[j].item.length)
    requires k < |InOrder(s)| ==> AreasOverlap(virt, length, InOrder(s)[k].item.addr, InOrder(s)[k].item.length)
    ensures k < |InOrder(s)| ==> var n := InOrder(s)[k];
      n in Nodes(s) && n.item in maps && IsFound(maps, virt, length, n.item)
    ensures k == |InOrder(s)| ==> forall m :: m in maps ==> !AreasOverlap(virt, length, m.addr, m.length)
  {
    hide AreasOverlap, InOrder, Nodes, Recorded;
    if k < |InOrder(s)| {
      Tree.OrderMember(s, InOrder(s)[k]);
      IsRecorded(s, maps, InOrder(s)[k]);
    }
    forall m | m in maps && AreasOverlap(virt, length, m.addr, m.length)
      ensures k < |InOrder(s)| && InOrder(s)[k].item.addr <= m.addr
    {
      var j := Listed(s, maps, m);
      assert k <= j;
    }
  }

  lemma IsRecorded(s: Shape, maps: map<Item, nat>, n: Node)
    requires Recorded(s, maps) && n in Nodes(s)
    ensures n.item in maps
  {
  }

  lemma Listed(s: Shape, maps: map<Item, nat>, m: Item) returns (j: nat)
    requires Recorded(s, maps) && m in maps
    ensures j < |InOrder(s)| && InOrder(s)[j].item == m
  {
    var n' :| n' in Nodes(s) && n'.item == m;
    Tree.OrderMember(s, n');
    j :| 0 <= j < |InOrder(s)| && InOrder(s)[j] == n';
  }
}
